/** The instruction text sent to the text model for one enhancement
    (the `prompt_context` f-string, app.py:151-159), and a reader for it
    that shows the text determines the selection and the prompt. */
module RequestText {

  datatype Option<T> = None | Some(value: T)

  /** The sixteen spaces every line of the f-string carries. */
  const Indent: string := "                "

  const TechniquesLead: string := "Apply these specific techniques: "
  const PromptLabel: string := "Original prompt: "

  /** The opening line, up to the technique list's lead-in. */
  const Header: string :=
    "\n" + Indent + "As an AI prompt engineer, enhance the following prompt to be more effective and clear.\n"
    + Indent

  /** Everything before the technique list. */
  const Preamble: string := Header + TechniquesLead

  /** The full stop after the list and the blank line. */
  const ListEnd: string := ".\n" + Indent + "\n" + Indent

  /** The full stop after the list, the blank line and the prompt's label. */
  const Interlude: string := ListEnd + PromptLabel

  /** Everything between the technique list and the prompt: it ends in the
      quote that opens the prompt. */
  const Middle: string := Interlude + "\""

  /** The closing instructions after the prompt's closing quote. */
  const Epilogue: string :=
    "\n" + Indent + "\n"
    + Indent + "Please provide an enhanced version that incorporates all selected techniques while maintaining the core intent of the original prompt.\n"
    + Indent + "Just give only the enhanced prompt no explanation.\n"
    + Indent

  /** Everything after the prompt. */
  const Closing: string := "\"" + Epilogue

  /** Python's `sep.join(parts)`: no parts give "", one part gives itself,
      and otherwise the first part and `sep` open the text (the last part
      closes it, by `JoinEndsInLast`). */
  function Join(parts: seq<string>, sep: string): (r: string)
    ensures parts == [] ==> r == ""
    ensures |parts| == 1 ==> r == parts[0]
    ensures |parts| >= 2 ==> |r| >= |parts[0]| + |sep| && r[..|parts[0]| + |sep|] == parts[0] + sep
    decreases |parts|
  {
    if parts == [] then ""
    else if |parts| == 1 then parts[0]
    else parts[0] + sep + Join(parts[1..], sep)
  }

  /** The position of the first `c` in `s`, or `|s|` when there is none. */
  function IndexOf(s: string, c: char): (i: nat)
    ensures i <= |s|
    ensures i < |s| ==> s[i] == c
    ensures forall k :: 0 <= k < i ==> s[k] != c
    decreases |s|
  {
    if s == [] then 0
    else if s[0] == c then 0
    else 1 + IndexOf(s[1..], c)
  }

  /** Cuts a list written by `Join(_, ", ")` back into its parts: each
      ',' ends a part and the space after it is dropped. */
  function Split(s: string): (parts: seq<string>)
    ensures |parts| >= 1
    decreases |s|
  {
    var i := IndexOf(s, ',');
    if i == |s| then [s]
    else [s[..i]] + Split(if i + 2 <= |s| then s[i + 2..] else [])
  }

  /** The request text for the selected names and the raw prompt. */
  function PromptContext(selected: seq<string>, prompt: string): (r: string)
    ensures var j := Join(selected, ", ");
            var k := |Preamble| + |j| + |Middle|;
            |r| == k + |prompt| + |Closing| &&
            r[|Preamble| - |TechniquesLead| .. |Preamble|] == TechniquesLead &&
            r[|Preamble| .. |Preamble| + |j|] == j &&
            r[k - 1 - |PromptLabel| .. k] == PromptLabel + "\"" &&
            r[k .. k + |prompt|] == prompt &&
            r[k + |prompt|] == '"'
  {
    var j := Join(selected, ", ");
    SuffixOf(ListEnd, PromptLabel);
    Layout(Header, TechniquesLead, j, Interlude, PromptLabel, prompt, Epilogue);
    Preamble + j + Middle + prompt + Closing
  }

  /** Where each piece of the request text sits, for any contents of the
      pieces: `h + t` is the preamble, `i` ends in label `l`, and the
      prompt `p` stands between two quotes. */
  lemma Layout(h: string, t: string, j: string, i: string, l: string, p: string, e: string)
    requires |i| >= |l| && i[|i| - |l|..] == l
    ensures var r := (h + t) + j + (i + "\"") + p + ("\"" + e);
            var k := |h + t| + |j| + |i| + 1;
            |r| == k + |p| + 1 + |e| &&
            r[|h + t| - |t| .. |h + t|] == t &&
            r[|h + t| .. |h + t| + |j|] == j &&
            r[k - 1 - |l| .. k] == l + "\"" &&
            r[k .. k + |p|] == p &&
            r[k + |p|] == '"'
  {
    var r := (h + t) + j + (i + "\"") + p + ("\"" + e);
    var k := |h + t| + |j| + |i| + 1;
    assert r == h + t + j + i + ['"'] + p + ['"'] + e;
    assert r[|h| .. |h| + |t|] == t;
    assert r[|h + t| .. |h + t| + |j|] == j;
    assert r[k - 1 - |l| .. k - 1] == i[|i| - |l|..];
    assert r[k - 1] == '"';
    assert r[k - 1 - |l| .. k] == r[k - 1 - |l| .. k - 1] + [r[k - 1]];
    assert r[k .. k + |p|] == p;
  }

  /** Reads a request text back into the technique list and the prompt:
      the prompt starts after the first '"' and ends before `Closing`. */
  function ParseRequest(text: string): Option<(seq<string>, string)>
  {
    if |text| < |Preamble| + |Closing| || text[..|Preamble|] != Preamble
       || text[|text| - |Closing|..] != Closing
    then None
    else
      var body := text[|Preamble| .. |text| - |Closing|];
      var q := IndexOf(body, '"');
      if q == |body| || q + 1 < |Middle| || body[q + 1 - |Middle| .. q + 1] != Middle then None
      else Some((Split(body[.. q + 1 - |Middle|]), body[q + 1 ..]))
  }

  /** No technique name contains a ',' or a '"'. */
  predicate PlainNames(names: seq<string>) {
    forall i :: 0 <= i < |names| ==> ',' !in names[i] && '"' !in names[i]
  }

  /** Skipping a prefix without `c` shifts the first `c` by its length. */
  lemma {:induction false} IndexOfAppend(a: string, b: string, c: char)
    requires c !in a
    ensures IndexOf(a + b, c) == |a| + IndexOf(b, c)
    decreases |a|
  {
    if a == [] {
      assert a + b == b;
    } else {
      assert (a + b)[0] == a[0] != c;
      assert (a + b)[1..] == a[1..] + b;
      IndexOfAppend(a[1..], b, c);
    }
  }

  /** A character in no part and not in the separator is not in the join. */
  lemma {:induction false} JoinAvoids(parts: seq<string>, sep: string, c: char)
    requires forall i :: 0 <= i < |parts| ==> c !in parts[i]
    requires c !in sep
    ensures c !in Join(parts, sep)
    decreases |parts|
  {
    if |parts| > 1 {
      JoinAvoids(parts[1..], sep, c);
    }
  }

  /** A join with parts ends in its last part. */
  lemma {:induction false} JoinEndsInLast(parts: seq<string>, sep: string)
    requires parts != []
    ensures var r := Join(parts, sep);
            var last := parts[|parts| - 1];
            |r| >= |last| && r[|r| - |last|..] == last
    decreases |parts|
  {
    if |parts| >= 2 {
      JoinEndsInLast(parts[1..], sep);
      var rest := Join(parts[1..], sep);
      assert Join(parts, sep) == (parts[0] + sep) + rest;
    }
  }

  /** Splitting at the first separator of `p + ", " + rest`, when `p` has
      no comma, peels off `p`. */
  lemma SplitStep(p: string, rest: string)
    requires ',' !in p
    ensures Split(p + ", " + rest) == [p] + Split(rest)
  {
    var s := p + ", " + rest;
    assert s == p + (", " + rest);
    IndexOfAppend(p, ", " + rest, ',');
    assert (", " + rest)[0] == ',';
    assert IndexOf(s, ',') == |p|;
    assert s[..|p|] == p;
    assert s[|p| + 2..] == rest;
  }

  /** Splitting a joined technique list gives the list back. */
  lemma {:induction false} SplitJoin(parts: seq<string>)
    requires parts != []
    requires forall i :: 0 <= i < |parts| ==> ',' !in parts[i]
    ensures Split(Join(parts, ", ")) == parts
    decreases |parts|
  {
    if |parts| == 1 {
      assert IndexOf(parts[0], ',') == |parts[0]|;
    } else {
      SplitStep(parts[0], Join(parts[1..], ", "));
      SplitJoin(parts[1..]);
      assert parts == [parts[0]] + parts[1..];
    }
  }

  /** The quote that ends `Middle` is its only one. */
  lemma MiddleEndsInQuote()
    ensures Middle != [] && Middle[|Middle| - 1] == '"' && '"' !in Middle[..|Middle| - 1]
  {
    assert '"' !in PromptLabel;
    assert '"' !in ListEnd;
    assert Middle[..|Middle| - 1] == Interlude;
  }

  /** In `j + mid + p`, where `mid` ends in the first quote, the part after
      that quote is `p` and the part before `mid` is `j`. */
  lemma {:induction false} QuoteSplits(j: string, mid: string, p: string)
    requires '"' !in j
    requires mid != [] && mid[|mid| - 1] == '"' && '"' !in mid[..|mid| - 1]
    ensures var body := j + mid + p;
            var q := IndexOf(body, '"');
            q == |j| + |mid| - 1 &&
            body[q + 1 - |mid| .. q + 1] == mid &&
            body[.. q + 1 - |mid|] == j &&
            body[q + 1 ..] == p
  {
    var m := |mid| - 1;
    var body := j + mid + p;
    assert '"' !in j + mid[..m];
    assert body == (j + mid[..m]) + (['"'] + p);
    IndexOfAppend(j + mid[..m], ['"'] + p, '"');
    assert body[.. |j|] == j;
    assert body[|j| .. |j| + |mid|] == mid;
  }

  lemma SuffixOf(a: string, b: string)
    ensures |a + b| >= |b| && (a + b)[|a + b| - |b| ..] == b
  {
  }

  /** The middle of `a + m + c` is what is left after cutting `a` off the
      front and `c` off the back. */
  lemma Framed(a: string, b: string, c: string, d: string, e: string)
    ensures var r := a + b + c + d + e;
            r[..|a|] == a && r[|r| - |e|..] == e && r[|a| .. |r| - |e|] == b + c + d
  {
    var r := a + b + c + d + e;
    assert r == a + (b + c + d) + e;
  }

  /** The request text determines the selection and the prompt: reading it
      back gives both, whatever the prompt contains (quotes included). */
  lemma ParseBuild(selected: seq<string>, prompt: string)
    requires selected != [] && PlainNames(selected)
    ensures ParseRequest(PromptContext(selected, prompt)) == Some((selected, prompt))
  {
    var j := Join(selected, ", ");
    JoinAvoids(selected, ", ", '"');
    ParseFramed(j, prompt);
    SplitJoin(selected);
  }

  /** Reading back a text built around any list `j` without quotes. */
  lemma ParseFramed(j: string, prompt: string)
    requires '"' !in j
    ensures ParseRequest(Preamble + j + Middle + prompt + Closing) == Some((Split(j), prompt))
  {
    Framed(Preamble, j, Middle, prompt, Closing);
    MiddleEndsInQuote();
    QuoteSplits(j, Middle, prompt);
  }

  /** Two different (selection, prompt) pairs never give the same text. */
  lemma PromptContextInjective(sel1: seq<string>, p1: string, sel2: seq<string>, p2: string)
    requires sel1 != [] && PlainNames(sel1)
    requires sel2 != [] && PlainNames(sel2)
    requires PromptContext(sel1, p1) == PromptContext(sel2, p2)
    ensures sel1 == sel2 && p1 == p2
  {
    ParseBuild(sel1, p1);
    ParseBuild(sel2, p2);
  }
}
