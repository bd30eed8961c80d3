/** The fixed catalogue of prompt-engineering techniques and the selection
    the sidebar builds from the ticked checkboxes (app.py:96-117). */
module Techniques {

  /** A catalogue entry: the name shown on the checkbox and its tooltip. */
  datatype Technique = Technique(name: string, description: string)

  /** The 14 keys of the dictionary literal, in its order. */
  const Names: seq<string> := [
    "Task/Context/Goal", "Audience targeting", "Affirmative Reinforcing", "Explicit Prompt",
    "Guidelines", "Constrained Format", "Zero-Shot Prompting", "Guideline Inclusion",
    "Use Delimiters", "Imperative Talk", "Identity Warning", "Role Assignment",
    "Echo Directive", "Task Decomposition"
  ]

  /** The tooltip of each key, at the same position. */
  const Descriptions: seq<string> := [
    "Clearly define objectives", "Specify target audience", "Use positive guidance",
    "Be specific and direct", "Set clear parameters", "Specify output format",
    "Direct task execution", "Include specific rules", "Clear section separation",
    "Command-like instructions", "AI identity specification", "Assign specific roles",
    "Confirmation requests", "Break down complex tasks"
  ]

  /** The dictionary's entries, in insertion order. */
  function Catalogue(): (c: seq<Technique>)
    ensures |c| == |Names| == 14
    ensures forall i :: 0 <= i < |c| ==> c[i].name == Names[i] && c[i].description == Descriptions[i]
  {
    seq(|Names|, i requires 0 <= i < |Names| => Technique(Names[i], Descriptions[i]))
  }

  /** No element occurs twice. */
  predicate Distinct(xs: seq<string>) {
    forall i, j :: 0 <= i < j < |xs| ==> xs[i] != xs[j]
  }

  /** The elements of `xs` that are in `ticked`, keeping their order. */
  function Filter(xs: seq<string>, ticked: set<string>): seq<string>
    decreases |xs|
  {
    if xs == [] then []
    else
      var init := Filter(xs[..|xs| - 1], ticked);
      if xs[|xs| - 1] in ticked then init + [xs[|xs| - 1]] else init
  }

  /** `a` is `b` with some elements left out, the rest in their order. */
  predicate IsSubsequence(a: seq<string>, b: seq<string>)
    decreases |b|
  {
    if a == [] then true
    else if b == [] then false
    else if a[|a| - 1] == b[|b| - 1] then
      IsSubsequence(a[..|a| - 1], b[..|b| - 1]) || IsSubsequence(a, b[..|b| - 1])
    else IsSubsequence(a, b[..|b| - 1])
  }

  /** The sidebar loop: walk the catalogue and append each ticked name.
      `ticked` holds the names whose checkbox returns true. */
  method SelectTechniques(ticked: set<string>) returns (selected: seq<string>)
    ensures selected == Filter(Names, ticked)
  {
    var techniques := Catalogue();
    selected := [];
    var i := 0;
    while i < |techniques|
      invariant 0 <= i <= |techniques|
      invariant selected == Filter(Names[..i], ticked)
    {
      assert Names[..i + 1][..i] == Names[..i];
      if techniques[i].name in ticked {
        selected := selected + [techniques[i].name];
      }
      i := i + 1;
    }
    assert Names[..i] == Names;
  }

  /** The selection holds exactly the ticked names of `xs`. */
  lemma {:induction false} FilterMembers(xs: seq<string>, ticked: set<string>, x: string)
    ensures x in Filter(xs, ticked) <==> x in xs && x in ticked
    decreases |xs|
  {
    if xs != [] {
      var init := xs[..|xs| - 1];
      FilterMembers(init, ticked, x);
      assert xs == init + [xs[|xs| - 1]];
    }
  }

  /** The selection lists the ticked names in the order of `xs`. */
  lemma {:induction false} FilterIsSubsequence(xs: seq<string>, ticked: set<string>)
    ensures IsSubsequence(Filter(xs, ticked), xs)
    decreases |xs|
  {
    if xs != [] {
      var init := xs[..|xs| - 1];
      FilterIsSubsequence(init, ticked);
      var f := Filter(xs, ticked);
      if xs[|xs| - 1] in ticked {
        assert f[..|f| - 1] == Filter(init, ticked);
      } else if f != [] && f[|f| - 1] == xs[|xs| - 1] {
        assert IsSubsequence(f, init);
      }
    }
  }

  /** A selection from a list without repeats has no repeats. */
  lemma {:induction false} FilterDistinct(xs: seq<string>, ticked: set<string>)
    requires Distinct(xs)
    ensures Distinct(Filter(xs, ticked))
    decreases |xs|
  {
    if xs != [] {
      var init := xs[..|xs| - 1];
      var last := xs[|xs| - 1];
      assert Distinct(init);
      FilterDistinct(init, ticked);
      if last in ticked {
        FilterMembers(init, ticked, last);
        assert last !in init;
      }
    }
  }

  /** The catalogue's keys are unique, as a dictionary's keys are. */
  lemma NamesDistinct()
    ensures Distinct(Names)
  {
  }

  /** What the sidebar produces: catalogue names only, each once, in
      catalogue order, and exactly the ticked ones; none ticked gives the
      empty list, all ticked gives the whole catalogue. */
  lemma SelectionProperties(ticked: set<string>)
    ensures forall x :: x in Filter(Names, ticked) <==> x in Names && x in ticked
    ensures IsSubsequence(Filter(Names, ticked), Names)
    ensures Distinct(Filter(Names, ticked))
    ensures (forall n :: n in Names ==> n !in ticked) ==> Filter(Names, ticked) == []
    ensures (forall n :: n in Names ==> n in ticked) ==> Filter(Names, ticked) == Names
  {
    forall x ensures x in Filter(Names, ticked) <==> x in Names && x in ticked {
      FilterMembers(Names, ticked, x);
    }
    FilterIsSubsequence(Names, ticked);
    NamesDistinct();
    FilterDistinct(Names, ticked);
    FilterAll(Names, ticked);
    FilterNone(Names, ticked);
  }

  lemma {:induction false} FilterAll(xs: seq<string>, ticked: set<string>)
    ensures (forall n :: n in xs ==> n in ticked) ==> Filter(xs, ticked) == xs
    decreases |xs|
  {
    if xs != [] && forall n :: n in xs ==> n in ticked {
      var init := xs[..|xs| - 1];
      assert forall n :: n in init ==> n in xs;
      FilterAll(init, ticked);
      assert xs == init + [xs[|xs| - 1]];
    }
  }

  lemma {:induction false} FilterNone(xs: seq<string>, ticked: set<string>)
    ensures (forall n :: n in xs ==> n !in ticked) ==> Filter(xs, ticked) == []
    decreases |xs|
  {
    if xs != [] && forall n :: n in xs ==> n !in ticked {
      var init := xs[..|xs| - 1];
      assert forall n :: n in init ==> n in xs;
      FilterNone(init, ticked);
    }
  }
}
