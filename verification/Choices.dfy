/**
  How the compression functions of deflate.c choose between literals and matches.

  A visit is what one turn of a function sees at a string: the text up to the end of the
  lookahead, the strings inserted so far, and the outcome of the search among them.  The
  choices follow from the visits alone, and the tokens from the choices and the input.
 */
module Choices {
  import opened Symbols
  import opened Blocks
  import opened Matcher

  const Z_FILTERED: nat := 1
  const TOO_FAR: nat := 4096

  // The window size, the hash and the limits of a search.
  datatype Setup = Setup(w: nat, hb: nat, hs: nat, effort: Effort)

  datatype Visit = Visit(
    base: nat,           // where the window begins in the input
    here: nat,           // the string, in the window
    ahead: nat,          // bytes from there on
    strings: set<nat>,   // inserted strings, in the window
    prev: nat,           // only a longer match is looked for
    seen: seq<nat>,      // the strings that were compared, none without a search
    best: nat,           // the longest match, or prev
    start: int)          // where it begins, in the window
  {
    function At(): nat {
      base + here
    }

    function End(): nat {
      base + here + ahead
    }

    // The match that the search reports, 0 without a search.
    function Length(): nat {
      if seen == [] then 0 else Cut(best, ahead)
    }

    function Distance(): nat {
      if start < here then here - start else 0
    }

    // The match that deflate_slow makes of it: some are not worth their distance.
    function Kept(filtered: bool): nat {
      if seen == [] then MIN_MATCH - 1
      else if Length() <= 5 && (filtered || (Length() == MIN_MATCH && here - start > TOO_FAR)) then MIN_MATCH - 1
      else Length()
    }
  }

  // The text that can be seen.
  function Text(data: seq<nat>, v: Visit): seq<nat>
    requires v.End() <= |data|
  {
    data[v.base..v.End()]
  }

  ghost predicate CanMatch(data: seq<nat>, p: Setup, v: Visit, x: nat)
    requires v.End() <= |data|
  {
    Candidate(Text(data, v), v.strings, p.w, p.hb, p.hs, v.here, v.ahead, x)
  }

  /**
    The visit is as the source would have it: if a search is allowed it takes place whenever
    there is a candidate, and its outcome is that of longest_match.
   */
  ghost predicate Honest(data: seq<nat>, p: Setup, allowed: bool, v: Visit) {
    && v.End() <= |data| && v.ahead > 0
    && (v.seen != [] <==> allowed && exists x: nat :: CanMatch(data, p, v, x))
    && (v.seen != [] ==>
          Searched(Text(data, v), v.strings, p.w, p.hb, p.hs, v.here, v.ahead, v.prev, p.effort, v.seen, v.best,
                   v.start))
  }

  lemma TextMore(data: seq<nat>, more: seq<nat>, v: Visit)
    requires v.End() <= |data|
    ensures v.End() <= |data + more| && Text(data + more, v) == Text(data, v)
  {
  }

  lemma HonestMore(data: seq<nat>, more: seq<nat>, p: Setup, allowed: bool, v: Visit)
    requires Honest(data, p, allowed, v)
    ensures Honest(data + more, p, allowed, v)
  {
    hide Candidate, Searched;
    TextMore(data, more, v);
    assert forall x: nat :: CanMatch(data, p, v, x) <==> CanMatch(data + more, p, v, x);
  }

  // ---------- choices ----------

  datatype Choice = Byte(at: nat) | Match(at: nat, len: nat, dist: nat)

  ghost predicate Stands(data: seq<nat>, c: Choice, t: Token) {
    match c
    case Byte(at) => at < |data| && t == Literal(data[at])
    case Match(_, len, dist) => t == Copy(len, dist)
  }

  // The tokens are those chosen.
  ghost predicate Made(data: seq<nat>, choices: seq<Choice>, tokens: seq<Token>) {
    |choices| == |tokens| && forall i :: 0 <= i < |choices| ==> Stands(data, choices[i], tokens[i])
  }

  lemma MadePush(data: seq<nat>, choices: seq<Choice>, tokens: seq<Token>, c: Choice, t: Token)
    requires Made(data, choices, tokens) && Stands(data, c, t)
    ensures Made(data, choices + [c], tokens + [t])
  {
  }

  lemma MadeMore(data: seq<nat>, choices: seq<Choice>, tokens: seq<Token>, more: seq<nat>)
    requires Made(data, choices, tokens)
    ensures Made(data + more, choices, tokens)
  {
    forall i | 0 <= i < |choices|
      ensures Stands(data + more, choices[i], tokens[i])
    {
      assert Stands(data, choices[i], tokens[i]);
    }
  }

  // ---------- deflate_fast ----------

  function FastChoice(v: Visit): Choice {
    if v.Length() >= MIN_MATCH then Match(v.At(), v.Length(), v.Distance()) else Byte(v.At())
  }

  // Bytes that a choice stands for.
  function Size(c: Choice): nat {
    match c
    case Byte(_) => 1
    case Match(_, len, _) => len
  }

  function FastChoices(visits: seq<Visit>): (r: seq<Choice>)
    ensures |r| == |visits|
  {
    seq(|visits|, i requires 0 <= i < |visits| => FastChoice(visits[i]))
  }

  // The visits follow each other, from the beginning of the input to n.
  ghost predicate InTurn(choices: seq<Choice>, n: nat) {
    && (choices == [] ==> n == 0) && (choices != [] ==> choices[0].at == 0)
    && forall i :: 0 <= i < |choices| ==> Adjoins(choices, n, i)
  }

  predicate Adjoins(choices: seq<Choice>, n: nat, i: nat)
    requires i < |choices|
  {
    choices[i].at + Size(choices[i]) == if i + 1 < |choices| then choices[i + 1].at else n
  }

  /**
    All strings up to n have been visited by deflate_fast: every match found is taken, and a
    byte is a literal only where none was found.
   */
  ghost predicate FastCourse(data: seq<nat>, p: Setup, visits: seq<Visit>, tokens: seq<Token>, n: nat) {
    && (forall v :: v in visits ==> Honest(data, p, true, v) && v.prev == MIN_MATCH - 1)
    && Made(data, FastChoices(visits), tokens) && InTurn(FastChoices(visits), n)
  }

  lemma FastStart(data: seq<nat>, p: Setup)
    ensures FastCourse(data, p, [], [], 0)
  {
  }

  lemma InTurnPush(choices: seq<Choice>, n: nat, c: Choice)
    requires InTurn(choices, n) && c.at == n
    ensures InTurn(choices + [c], n + Size(c))
  {
    var after, m := choices + [c], n + Size(c);
    forall i | 0 <= i < |after|
      ensures Adjoins(after, m, i)
    {
      if i < |choices| {
        assert Adjoins(choices, n, i);
      }
    }
  }

  lemma FastPush(data: seq<nat>, p: Setup, visits: seq<Visit>, tokens: seq<Token>, n: nat, v: Visit, t: Token)
    requires FastCourse(data, p, visits, tokens, n)
    requires Honest(data, p, true, v) && v.prev == MIN_MATCH - 1 && v.At() == n
    requires Stands(data, FastChoice(v), t)
    ensures FastCourse(data, p, visits + [v], tokens + [t], n + Size(FastChoice(v)))
  {
    hide Honest, InTurn, Made, FastChoice;
    assert FastChoices(visits + [v]) == FastChoices(visits) + [FastChoice(v)];
    MadePush(data, FastChoices(visits), tokens, FastChoice(v), t);
    FastChoiceAt(v);
    InTurnPush(FastChoices(visits), n, FastChoice(v));
  }

  lemma FastChoiceAt(v: Visit)
    ensures FastChoice(v).at == v.At()
  {
  }

  lemma FastMore(data: seq<nat>, p: Setup, visits: seq<Visit>, tokens: seq<Token>, n: nat, more: seq<nat>)
    requires FastCourse(data, p, visits, tokens, n)
    ensures FastCourse(data + more, p, visits, tokens, n)
  {
    hide Honest, InTurn, Made;
    forall v | v in visits
      ensures Honest(data + more, p, true, v)
    {
      HonestMore(data, more, p, true, v);
    }
    MadeMore(data, FastChoices(visits), tokens, more);
  }

  // ---------- deflate_slow ----------

  // A string is visited, or the input ends for now and the byte that waits is a literal.
  datatype Event = Looked(v: Visit) | Ended

  // What deflate_slow remembers: the match of the previous string, which waits if open.
  datatype Lazy = Lazy(at: nat, prev: nat, dist: nat, open: bool, choices: seq<Choice>)

  function Waiting(s: Lazy): (r: seq<Choice>) {
    if s.open && s.at > 0 then [Byte(s.at - 1)] else []
  }

  /**
    One turn: the match that waits is taken if the one of this string is not longer,
    otherwise the byte that waits is a literal.
   */
  function LazyStep(s: Lazy, filtered: bool, e: Event): Lazy {
    match e
    case Ended => s.(open := false, choices := s.choices + Waiting(s))
    case Looked(v) =>
      var kept := v.Kept(filtered);
      if s.prev >= MIN_MATCH && kept <= s.prev && s.at > 0 then
        Lazy(s.at - 1 + s.prev, MIN_MATCH - 1, 0, false, s.choices + [Match(s.at - 1, s.prev, s.dist)])
      else
        Lazy(s.at + 1, kept, v.Distance(), true, s.choices + Waiting(s))
  }

  function LazyRun(events: seq<Event>, filtered: bool): Lazy {
    if events == [] then Lazy(0, MIN_MATCH - 1, 0, false, [])
    else LazyStep(LazyRun(events[..|events| - 1], filtered), filtered, events[|events| - 1])
  }

  // An event is as the source would have it, in the state before.
  ghost predicate Fits(data: seq<nat>, p: Setup, lazy: nat, s: Lazy, e: Event) {
    match e
    case Ended => s.prev < MIN_MATCH
    case Looked(v) => Honest(data, p, s.prev < lazy, v) && v.prev == s.prev && v.At() == s.at
  }

  /**
    deflate_slow has come to the state s: it has searched the strings in turn, each unless
    the match that waits is lazy bytes long, and made its choices.
   */
  ghost predicate SlowCourse(data: seq<nat>, p: Setup, lazy: nat, filtered: bool, events: seq<Event>,
                             tokens: seq<Token>, s: Lazy) {
    && (forall i :: 0 <= i < |events| ==> Fits(data, p, lazy, LazyRun(events[..i], filtered), events[i]))
    && s == LazyRun(events, filtered) && Made(data, s.choices, tokens)
  }

  lemma SlowStart(data: seq<nat>, p: Setup, lazy: nat, filtered: bool)
    ensures SlowCourse(data, p, lazy, filtered, [], [], Lazy(0, MIN_MATCH - 1, 0, false, []))
  {
  }

  lemma LazyPush(events: seq<Event>, filtered: bool, e: Event)
    ensures LazyRun(events + [e], filtered) == LazyStep(LazyRun(events, filtered), filtered, e)
  {
    assert (events + [e])[..|events|] == events;
  }

  lemma SlowPush(data: seq<nat>, p: Setup, lazy: nat, filtered: bool, events: seq<Event>, tokens: seq<Token>, s: Lazy,
                 e: Event, more: seq<Token>)
    requires SlowCourse(data, p, lazy, filtered, events, tokens, s) && Fits(data, p, lazy, s, e)
    requires Made(data, LazyStep(s, filtered, e).choices, tokens + more)
    ensures SlowCourse(data, p, lazy, filtered, events + [e], tokens + more, LazyStep(s, filtered, e))
  {
    hide Fits, Made, LazyStep;
    LazyPush(events, filtered, e);
    var after := events + [e];
    forall i | 0 <= i < |after|
      ensures Fits(data, p, lazy, LazyRun(after[..i], filtered), after[i])
    {
      if i < |events| {
        assert after[..i] == events[..i];
      } else {
        assert after[..i] == events;
      }
    }
  }

  lemma SlowMore(data: seq<nat>, p: Setup, lazy: nat, filtered: bool, events: seq<Event>, tokens: seq<Token>, s: Lazy,
                 more: seq<nat>)
    requires SlowCourse(data, p, lazy, filtered, events, tokens, s)
    ensures SlowCourse(data + more, p, lazy, filtered, events, tokens, s)
  {
    hide Honest, Made, LazyRun;
    forall i | 0 <= i < |events|
      ensures Fits(data + more, p, lazy, LazyRun(events[..i], filtered), events[i])
    {
      var b := LazyRun(events[..i], filtered);
      assert Fits(data, p, lazy, b, events[i]);
      if events[i].Looked? {
        HonestMore(data, more, p, b.prev < lazy, events[i].v);
      }
    }
    MadeMore(data, s.choices, tokens, more);
  }

  // ---------- what lazy matching means ----------

  // The match of a string is longer than that of the string before.
  predicate Longer(events: seq<Event>, i: nat, filtered: bool)
    requires 0 < i < |events| && events[i - 1].Looked?
  {
    events[i].Looked? && events[i].v.Kept(filtered) > events[i - 1].v.Kept(filtered)
  }

  lemma LazyPrefix(events: seq<Event>, i: nat, filtered: bool)
    requires i < |events|
    ensures LazyRun(events[..i + 1], filtered) == LazyStep(LazyRun(events[..i], filtered), filtered, events[i])
  {
    assert events[..i + 1] == events[..i] + [events[i]];
    LazyPush(events[..i], filtered, events[i]);
  }

  // A string whose match waits after its visit.
  predicate Waits(events: seq<Event>, i: nat, filtered: bool)
    requires i < |events|
  {
    events[i].Looked? && LazyRun(events[..i + 1], filtered).open
  }

  /**
    What becomes of a string that waits: a match exactly if it has one and the next string
    has none that is longer, otherwise a literal.
   */
  lemma LazyRule(data: seq<nat>, p: Setup, lazy: nat, filtered: bool, events: seq<Event>, tokens: seq<Token>, s: Lazy,
                 i: nat)
    requires SlowCourse(data, p, lazy, filtered, events, tokens, s) && i + 1 < |events| && Waits(events, i, filtered)
    ensures var v := events[i].v;
            LazyRun(events[..i + 2], filtered).choices == LazyRun(events[..i + 1], filtered).choices
              + [if v.Kept(filtered) >= MIN_MATCH && !Longer(events, i + 1, filtered)
                 then Match(v.At(), v.Kept(filtered), v.Distance()) else Byte(v.At())]
  {
    hide Honest, LazyRun, Made;
    LazyPrefix(events, i, filtered);
    LazyPrefix(events, i + 1, filtered);
    assert Fits(data, p, lazy, LazyRun(events[..i], filtered), events[i]);
    assert Fits(data, p, lazy, LazyRun(events[..i + 1], filtered), events[i + 1]);
  }

  /**
    Where a choice comes from.  A literal stands for a string without a match, or with one
    that is shorter than that of the next string; a match is that of its string, and the next
    string has none that is longer.
   */
  lemma {:induction false} ChoiceWhy(data: seq<nat>, p: Setup, lazy: nat, filtered: bool, events: seq<Event>,
                                     tokens: seq<Token>, s: Lazy, k: nat) returns (i: nat)
    requires SlowCourse(data, p, lazy, filtered, events, tokens, s) && k < |s.choices|
    ensures i + 1 < |events| && Waits(events, i, filtered) && events[i].v.At() == s.choices[k].at
    ensures s.choices[k].Byte? ==> events[i].v.Kept(filtered) < MIN_MATCH || Longer(events, i + 1, filtered)
    ensures s.choices[k].Match? ==>
      && s.choices[k] == Match(events[i].v.At(), events[i].v.Kept(filtered), events[i].v.Distance())
      && s.choices[k].len >= MIN_MATCH && !Longer(events, i + 1, filtered)
    decreases |events|
  {
    hide Fits, Made, LazyRun, LazyStep, Waits, Longer;
    NoChoices(filtered);
    var m := |events| - 1;
    var before, e := events[..m], events[m];
    var b := LazyRun(before, filtered);
    assert events == before + [e];
    LazyPush(before, filtered, e);
    SlowBefore(data, p, lazy, filtered, events, tokens, s);
    if k < |b.choices| {
      i := ChoiceWhy(data, p, lazy, filtered, before, tokens[..|b.choices|], b, k);
      SameEvents(events, i, filtered);
      StepChoice(b, filtered, e);
    } else {
      OpenState(data, p, lazy, filtered, before, tokens[..|b.choices|], b);
      StepChoice(b, filtered, e);
      FitsEnd(data, p, lazy, b, e);
      i := m - 1;
      LastChoice(events, filtered, b);
    }
  }

  lemma SameEvents(events: seq<Event>, i: nat, filtered: bool)
    requires i + 2 < |events| && Waits(events[..|events| - 1], i, filtered)
    ensures Waits(events, i, filtered)
    ensures events[..|events| - 1][i] == events[i]
    ensures Longer(events[..|events| - 1], i + 1, filtered) <==> Longer(events, i + 1, filtered)
  {
    hide LazyRun;
    assert events[..|events| - 1][..i + 1] == events[..i + 1];
  }

  // A step makes at most one choice, about the string that waits.
  lemma StepChoice(s: Lazy, filtered: bool, e: Event)
    ensures s.choices <= LazyStep(s, filtered, e).choices && |LazyStep(s, filtered, e).choices| <= |s.choices| + 1
    ensures |LazyStep(s, filtered, e).choices| > |s.choices| ==> s.at > 0 && (s.open || s.prev >= MIN_MATCH)
  {
  }

  // What the last event makes of the string before.
  lemma LastChoice(events: seq<Event>, filtered: bool, b: Lazy)
    requires |events| >= 2 && b == LazyRun(events[..|events| - 1], filtered) && b.open && b.at > 0
    requires events[|events| - 2].Looked? && var v := events[|events| - 2].v;
             b.at == v.At() + 1 && b.prev == v.Kept(filtered) && b.dist == v.Distance()
    requires events[|events| - 1].Ended? ==> b.prev < MIN_MATCH
    ensures Waits(events, |events| - 2, filtered)
    ensures var c := LazyStep(b, filtered, events[|events| - 1]).choices;
            |c| == |b.choices| + 1
            && var v, last := events[|events| - 2].v, c[|b.choices|];
               last == if v.Kept(filtered) >= MIN_MATCH && !Longer(events, |events| - 1, filtered)
                       then Match(v.At(), v.Kept(filtered), v.Distance()) else Byte(v.At())
  {
    hide LazyRun;
    assert events[..|events| - 2 + 1] == events[..|events| - 1];
  }

  lemma FitsEnd(data: seq<nat>, p: Setup, lazy: nat, s: Lazy, e: Event)
    requires Fits(data, p, lazy, s, e)
    ensures e.Ended? ==> s.prev < MIN_MATCH
  {
  }

  lemma NoChoices(filtered: bool)
    ensures LazyRun([], filtered).choices == []
  {
  }

  // Without its last event.
  lemma SlowBefore(data: seq<nat>, p: Setup, lazy: nat, filtered: bool, events: seq<Event>, tokens: seq<Token>,
                   s: Lazy)
    requires SlowCourse(data, p, lazy, filtered, events, tokens, s) && events != []
    ensures var b := LazyRun(events[..|events| - 1], filtered);
            |b.choices| <= |tokens|
            && SlowCourse(data, p, lazy, filtered, events[..|events| - 1], tokens[..|b.choices|], b)
            && Fits(data, p, lazy, b, events[|events| - 1])
  {
    hide Fits, LazyRun, Stands;
    var before := events[..|events| - 1];
    var b := LazyRun(before, filtered);
    assert events == before + [events[|events| - 1]];
    LazyPush(before, filtered, events[|events| - 1]);
    forall i | 0 <= i < |before|
      ensures Fits(data, p, lazy, LazyRun(before[..i], filtered), before[i])
    {
      assert before[..i] == events[..i];
    }
    forall i | 0 <= i < |b.choices|
      ensures Stands(data, b.choices[i], tokens[..|b.choices|][i])
    {
      assert Stands(data, s.choices[i], tokens[i]);
    }
  }

  // The match that waits is that of the string visited last.
  lemma OpenState(data: seq<nat>, p: Setup, lazy: nat, filtered: bool, events: seq<Event>, tokens: seq<Token>, s: Lazy)
    requires SlowCourse(data, p, lazy, filtered, events, tokens, s)
    ensures s.prev >= MIN_MATCH ==> s.open
    ensures s.open ==>
      && events != [] && events[|events| - 1].Looked?
      && var v := events[|events| - 1].v;
         s.at == v.At() + 1 && s.prev == v.Kept(filtered) && s.dist == v.Distance()
  {
    hide Honest, Made;
    if events != [] {
      var m := |events| - 1;
      assert events[..m + 1] == events;
      LazyPrefix(events, m, filtered);
      assert Fits(data, p, lazy, LazyRun(events[..m], filtered), events[m]);
    }
  }

  // ---------- deflate_rle and deflate_huff ----------

  // The run of the byte before, at most MAX_MATCH long; less than MIN_MATCH is none.
  function RleLength(data: seq<nat>, v: Visit): nat
    requires v.End() <= |data|
  {
    if v.ahead >= MIN_MATCH && v.here > 0 then
      Run(Text(data, v), v.here, if v.ahead < MAX_MATCH then v.ahead else MAX_MATCH)
    else 0
  }

  ghost predicate RleChosen(data: seq<nat>, v: Visit, c: Choice) {
    && v.End() <= |data| && v.ahead > 0
    && c == if RleLength(data, v) >= MIN_MATCH then Match(v.At(), RleLength(data, v), 1) else Byte(v.At())
  }

  /**
    All bytes up to n have been visited by deflate_rle: every run that is long enough is
    taken as far as it goes, and a byte is a literal only where there is none.
   */
  ghost predicate RleCourse(data: seq<nat>, visits: seq<Visit>, choices: seq<Choice>, tokens: seq<Token>, n: nat) {
    && |visits| == |choices| && (forall i :: 0 <= i < |visits| ==> RleChosen(data, visits[i], choices[i]))
    && Made(data, choices, tokens) && InTurn(choices, n)
  }

  lemma RleStart(data: seq<nat>)
    ensures RleCourse(data, [], [], [], 0)
  {
  }

  lemma RlePush(data: seq<nat>, visits: seq<Visit>, choices: seq<Choice>, tokens: seq<Token>, n: nat, v: Visit,
                c: Choice, t: Token)
    requires RleCourse(data, visits, choices, tokens, n) && RleChosen(data, v, c) && c.at == n && Stands(data, c, t)
    ensures RleCourse(data, visits + [v], choices + [c], tokens + [t], n + Size(c))
  {
    hide InTurn, Made, RleChosen;
    MadePush(data, choices, tokens, c, t);
    InTurnPush(choices, n, c);
  }

  lemma RleMore(data: seq<nat>, visits: seq<Visit>, choices: seq<Choice>, tokens: seq<Token>, n: nat, more: seq<nat>)
    requires RleCourse(data, visits, choices, tokens, n)
    ensures RleCourse(data + more, visits, choices, tokens, n)
  {
    hide InTurn, Made;
    forall i | 0 <= i < |visits|
      ensures RleChosen(data + more, visits[i], choices[i])
    {
      assert RleChosen(data, visits[i], choices[i]);
      TextMore(data, more, visits[i]);
    }
    MadeMore(data, choices, tokens, more);
  }

  // Tokens are buffered until a block is written.
  predicate Suffix(buffered: seq<Token>, tokens: seq<Token>) {
    |buffered| <= |tokens| && tokens[|tokens| - |buffered|..] == buffered
  }

  lemma SuffixPush(buffered: seq<Token>, tokens: seq<Token>, t: Token)
    requires Suffix(buffered, tokens)
    ensures Suffix(buffered + [t], tokens + [t]) && Suffix([], tokens)
  {
    assert (tokens + [t])[|tokens| - |buffered|..] == tokens[|tokens| - |buffered|..] + [t];
  }

  lemma MatchStands(data: seq<nat>, at: nat, len: nat, dist: nat)
    ensures Stands(data, Match(at, len, dist), Copy(len, dist))
  {
  }

  lemma ByteStands(data: seq<nat>, at: nat)
    requires at < |data|
    ensures Stands(data, Byte(at), Literal(data[at]))
  {
  }

  lemma MadeEnd(data: seq<nat>, choices: seq<Choice>, tokens: seq<Token>)
    requires Made(data, choices, tokens)
    ensures Made(data, choices + [], tokens + []) && choices + [] == choices && tokens + [] == tokens
  {
  }

  // deflate_huff: one literal for each of the first n bytes.
  ghost predicate HuffCourse(data: seq<nat>, tokens: seq<Token>, n: nat) {
    |tokens| == n <= |data| && forall i :: 0 <= i < n ==> tokens[i] == Literal(data[i])
  }

  lemma HuffPush(data: seq<nat>, tokens: seq<Token>, n: nat)
    requires HuffCourse(data, tokens, n) && n < |data|
    ensures HuffCourse(data, tokens + [Literal(data[n])], n + 1)
  {
  }

  lemma HuffMore(data: seq<nat>, more: seq<nat>, tokens: seq<Token>, n: nat)
    requires HuffCourse(data, tokens, n) && data <= more
    ensures HuffCourse(more, tokens, n)
  {
  }
}
