/** The "Enhance Prompt" button handler and the session state it updates
    (app.py:10-13, 127-177).  The clock reading and the outcome of the
    provider call are inputs; the limiter fields are updated in place. */
module Enhancer {
  import opened RateLimit
  import opened Techniques
  import opened RequestText

  /** The button is enabled only when the API key, the prompt and the
      selection are all non-empty (Python truthiness of each). */
  predicate Enabled(apiKey: string, prompt: string, selected: seq<string>) {
    apiKey != [] && prompt != [] && selected != []
  }

  /** With the sidebar's selection, the button is enabled exactly when a key
      and a prompt are entered and at least one catalogue name is ticked. */
  lemma EnabledBySidebar(apiKey: string, prompt: string, ticked: set<string>)
    ensures Enabled(apiKey, prompt, Filter(Names, ticked))
        <==> apiKey != [] && prompt != [] && exists n :: n in Names && n in ticked
  {
    var sel := Filter(Names, ticked);
    if sel != [] {
      FilterMembers(Names, ticked, sel[0]);
    }
    forall n | n in Names && n in ticked ensures sel != [] {
      FilterMembers(Names, ticked, n);
    }
  }

  /** One browser session's `st.session_state` limiter fields. */
  class Session {
    var lastRequestAt: int
    var requestCount: int

    /** The two fields as a value. */
    function State(): LimiterState
      reads this
    {
      LimiterState(lastRequestAt, requestCount)
    }

    /** The counter stays within 0..60. */
    ghost predicate Valid()
      reads this
    {
      Bounded(State())
    }

    /** A new session: `datetime.min` and a count of 0. */
    constructor ()
      ensures Valid() && State() == Initial
    {
      lastRequestAt := 0;
      requestCount := 0;
    }

    /** The limiter part of the handler: the two checks and, after a
        provider call that returned, the commit.  A call that raised
        reaches the `except` clause before the commit, so nothing changes. */
    method Attempt(now: int, providerSucceeds: bool) returns (d: Decision)
      requires Valid()
      modifies this
      ensures Valid()
      ensures d == Decide(old(State()), now, providerSucceeds)
      ensures State() == Next(old(State()), now, providerSucceeds)
    {
      var elapsed := now - lastRequestAt;
      if elapsed < MinGap {
        d := TooSoon;
      } else if requestCount >= Quota {
        d := QuotaReached(WholeSeconds(Window - elapsed));
      } else if !providerSucceeds {
        d := Called(false);
      } else {
        lastRequestAt := now;
        requestCount := requestCount + 1;
        if elapsed >= Window {
          requestCount := 0;
        }
        d := Called(true);
      }
    }

    /** A press of the button.  `d` is None when the button is disabled;
        `sent` is the request text the handler builds for an admitted press,
        present exactly when the limiter let the call through. */
    method EnhancePrompt(apiKey: string, prompt: string, selected: seq<string>,
                         now: int, providerSucceeds: bool)
      returns (d: Option<Decision>, sent: Option<string>)
      requires Valid()
      modifies this
      ensures Valid()
      ensures d.None? <==> !Enabled(apiKey, prompt, selected)
      ensures d.Some? ==> d.value == Decide(old(State()), now, providerSucceeds)
      ensures sent.Some? <==> d.Some? && d.value.Called?
      ensures sent.Some? ==> sent.value == PromptContext(selected, prompt)
      ensures State() == if d.Some? then Next(old(State()), now, providerSucceeds) else old(State())
    {
      if !Enabled(apiKey, prompt, selected) {
        return None, None;
      }
      var decision := Attempt(now, providerSucceeds);
      d := Some(decision);
      sent := if decision.Called? then Some(PromptContext(selected, prompt)) else None;
    }
  }

  /** No catalogue name contains a ',' or a '"'. */
  lemma CatalogueNamesPlain()
    ensures PlainNames(Names)
  {
    NamesPlainUpTo5();
    NamesPlainUpTo10();
    NamesPlainUpTo14();
  }

  lemma NamesPlainUpTo5()
    ensures forall i :: 0 <= i < 5 ==> ',' !in Names[i] && '"' !in Names[i]
  {
  }

  lemma NamesPlainUpTo10()
    ensures forall i :: 5 <= i < 10 ==> ',' !in Names[i] && '"' !in Names[i]
  {
  }

  lemma NamesPlainUpTo14()
    ensures forall i :: 10 <= i < |Names| ==> ',' !in Names[i] && '"' !in Names[i]
  {
  }

  /** Any non-empty selection the sidebar can produce is named in the request
      text in a form that reads back, list and prompt, exactly. */
  lemma SelectionReadsBack(ticked: set<string>, prompt: string)
    requires Filter(Names, ticked) != []
    ensures ParseRequest(PromptContext(Filter(Names, ticked), prompt))
         == Some((Filter(Names, ticked), prompt))
  {
    var sel := Filter(Names, ticked);
    CatalogueNamesPlain();
    forall i | 0 <= i < |sel| ensures ',' !in sel[i] && '"' !in sel[i] {
      FilterMembers(Names, ticked, sel[i]);
    }
    ParseBuild(sel, prompt);
  }
}
