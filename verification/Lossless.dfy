/**
  What it means that compressed output is right: tokens that reproduce a text, and bits that
  the decoder reads back as a text.
 */
module Lossless {
  import opened Canonical
  import opened BitWriter
  import opened Inflater
  import opened InflaterRuns
  import opened Blocks
  import opened Matcher

  // ---------- tokens ----------

  // A byte-by-byte copy reproduces it, even where source and destination overlap.
  lemma {:induction false} CopyMatchIs(data: seq<nat>, n: nat, len: nat, dist: nat)
    requires Repeats(data, n, len, dist)
    ensures CopyMatch(data[..n], len, dist) == data[..n + len]
    decreases len
  {
    if len > 0 {
      assert data[..n] + [data[n - dist]] == data[..n + 1];
      CopyMatchIs(data, n + 1, len - 1, dist);
    }
  }

  lemma {:induction false} ExpandPush(out: seq<nat>, ts: seq<Token>, t: Token)
    requires Expand(out, ts).Some? && Reachable(Expand(out, ts).value, t)
    ensures Expand(out, ts + [t]) == Some(Output(Expand(out, ts).value, t))
    decreases |ts|
  {
    hide Output, Reachable;
    if ts == [] {
      assert [t][1..] == [] && [] + [t] == [t];
      ExpandOne(out, t);
    } else {
      assert (ts + [t])[1..] == ts[1..] + [t];
      ExpandPush(Output(out, ts[0]), ts[1..], t);
    }
  }

  lemma ExpandOne(out: seq<nat>, t: Token)
    requires Reachable(out, t)
    ensures Expand(out, [t]) == Some(Output(out, t))
  {
    hide Output, Reachable;
    assert [t][1..] == [];
    ExpandEmpty(Output(out, t));
  }

  lemma ExpandEmpty(out: seq<nat>)
    ensures Expand(out, []) == Some(out)
  {
  }

  // The tokens stand for the text from out up to position n.
  ghost predicate Yields(out: seq<nat>, ts: seq<Token>, data: seq<nat>, n: nat) {
    n <= |data| && Expand(out, ts) == Some(data[..n])
  }

  lemma YieldsLiteral(out: seq<nat>, ts: seq<Token>, data: seq<nat>, n: nat)
    requires Yields(out, ts, data, n) && n < |data|
    ensures Yields(out, ts + [Literal(data[n])], data, n + 1)
  {
    hide Expand;
    ExpandPush(out, ts, Literal(data[n]));
    assert data[..n] + [data[n]] == data[..n + 1];
  }

  lemma YieldsCopy(out: seq<nat>, ts: seq<Token>, data: seq<nat>, n: nat, len: nat, dist: nat)
    requires Yields(out, ts, data, n) && Repeats(data, n, len, dist)
    ensures Yields(out, ts + [Copy(len, dist)], data, n + len)
  {
    hide Expand, CopyMatch;
    ExpandPush(out, ts, Copy(len, dist));
    CopyMatchIs(data, n, len, dist);
  }

  lemma YieldsMore(out: seq<nat>, ts: seq<Token>, data: seq<nat>, n: nat, more: seq<nat>)
    requires Yields(out, ts, data, n)
    ensures Yields(out, ts, data + more, n)
  {
    hide Expand;
    assert (data + more)[..n] == data[..n];
  }

  lemma YieldsNothing(data: seq<nat>, n: nat)
    requires n <= |data|
    ensures Yields(data[..n], [], data, n)
  {
    ExpandEmpty(data[..n]);
  }

  // ---------- bits ----------

  // No distance is larger than d.
  predicate Near(ts: seq<Token>, d: int) {
    forall t :: t in ts ==> t.Copy? ==> t.dist <= d
  }

  lemma NearPush(ts: seq<Token>, t: Token, d: int)
    requires Near(ts, d) && (t.Copy? ==> t.dist <= d)
    ensures Near(ts + [t], d)
  {
  }

  lemma {:induction false} FarthestNear(reach: nat, ts: seq<Token>, d: int)
    requires reach <= d && Near(ts, d)
    ensures Farthest(reach, ts) <= d
    decreases |ts|
  {
    if ts != [] {
      assert ts[0] in ts;
      FarthestNear(if ts[0].Copy? then Farther(reach, ts[0].dist) else reach, ts[1..], d);
    }
  }

  predicate BlockNear(b: Block, d: int) {
    match b
    case Stored(_) => true
    case Fixed(tokens) => Near(tokens, d)
    case Dynamic(_, tokens) => Near(tokens, d)
  }

  lemma BlockReachNear(b: Block, reach: nat, d: int)
    requires reach <= d && BlockNear(b, d)
    ensures BlockReach(b, reach) <= d
  {
    match b
    case Stored(_) =>
    case Fixed(tokens) => FarthestNear(reach, tokens, d);
    case Dynamic(_, tokens) => FarthestNear(reach, tokens, d);
  }

  // The decoder takes in all of the bits and then awaits the next block; it has needed no
  // distance larger than d.
  ghost predicate ReadsBack(bits: seq<bool>, out: seq<nat>, last: bool, d: int) {
    exists n: nat, e: State :: Runs(Inflater.Start(), bits, n, e, []) && Between(e, bits, out, last, d)
  }

  ghost predicate Between(e: State, bits: seq<bool>, out: seq<nat>, last: bool, d: int) {
    e.mode == TYPE && e.out == out && e.last == last && e.pos == |bits| && e.reach <= d && Ok(e)
  }

  // The decoder takes in all of the bits and finishes; it has needed no distance larger
  // than d.
  ghost predicate Inflates(bits: seq<bool>, out: seq<nat>, d: int) {
    exists n: nat, e: State :: Runs(Inflater.Start(), bits, n, e, []) && e.mode == DONE && e.out == out && e.reach <= d
  }

  lemma ReadsBackNothing(d: int)
    requires d >= 0
    ensures ReadsBack([], [], false, d)
  {
    hide Ok;
    NoRun(Inflater.Start(), []);
    InitialOk();
    assert Between(Inflater.Start(), [], [], false, d);
  }

  lemma InitialOk()
    ensures Ok(Inflater.Start())
  {
  }

  lemma ReadsBackBlock(bits: seq<bool>, out: seq<nat>, b: Block, last: bool, d: int)
    requires ReadsBack(bits, out, false, d) && BlockOk(b, out) && BlockNear(b, d)
    ensures ReadsBack(bits + BlockBits(b, out, |bits|, last), BlockOutput(b, out), last, d)
  {
    hide Runs, BlockBits, BlockOk, BlockOutput, BlockNear, BlockReach, Ok;
    var n, e: State :| Runs(Inflater.Start(), bits, n, e, []) && Between(e, bits, out, false, d);
    var more := BlockBits(b, out, |bits|, last);
    var k, f := BlockRun(e, b, last, []);
    assert more + [] == more;
    InitialOk();
    RunsStable(Inflater.Start(), bits, n, e, [], more);
    assert [] + more == more;
    RunsCompose(Inflater.Start(), bits + more, n, e, more, k, f, []);
    BlockReachNear(b, e.reach, d);
    assert Between(f, bits + more, BlockOutput(b, out), last, d);
  }

  lemma InflatesPadded(bits: seq<bool>, out: seq<nat>, d: int)
    requires ReadsBack(bits, out, true, d)
    ensures Inflates(bits + Padding(|bits|), out, d)
  {
    hide Runs, Ok, Padding;
    var n, e: State :| Runs(Inflater.Start(), bits, n, e, []) && Between(e, bits, out, true, d);
    var pad := Padding(|bits|);
    InitialOk();
    RunsStable(Inflater.Start(), bits, n, e, [], pad);
    assert [] + pad == pad;
    var f := Take(e, Skip(e)).(mode := DONE);
    assert pad[|pad|..] == [];
    OneStep(e, pad, f, []);
    RunsCompose(Inflater.Start(), bits + pad, n, e, pad, 1, f, []);
  }
}
