/**
  The compression functions of deflate.c and the losslessness of what they write.

  In every state the bits written so far are read back by the decoder as the input up to the
  beginning of the current block, and the buffered tokens stand for the input from there to
  the current string.
 */
module Deflate {
  import opened Bits
  import opened Canonical
  import opened Symbols
  import opened BitWriter
  import opened HashChains
  import opened Blocks
  import opened TokenWriter
  import opened FlushBlock
  import opened Matcher
  import opened Choices
  import opened Lossless
  import opened Expansion
  import opened Window

  datatype BlockState = NeedMore | BlockDone | FinishStarted | FinishDone
  datatype Flush = NoFlush | PartialFlush | SyncFlush | FullFlush | Finish | BlockFlush

  const Z_OK := 0
  const Z_STREAM_END := 1
  const Z_STREAM_ERROR := -2
  const Z_BUF_ERROR := -5

  function FlushCode(f: Flush): int {
    match f
    case NoFlush => 0
    case PartialFlush => 1
    case SyncFlush => 2
    case FullFlush => 3
    case Finish => 4
    case BlockFlush => 5
  }

  // The order of flush modes, with Z_BLOCK between Z_NO_FLUSH and Z_PARTIAL_FLUSH.
  function CodeRank(f: int): int {
    2 * f - if f > 4 then 9 else 0
  }

  function FlushRank(f: Flush): int {
    CodeRank(FlushCode(f))
  }

  // What marks a flush: an empty fixed block, nothing, or an empty stored block, which ends
  // with the bytes 00 00 ff ff.
  function Marker(flush: Flush, pos: nat): seq<bool> {
    match flush
    case PartialFlush => [false, true, false] + Repeated(false, 7)
    case BlockFlush => []
    case _ => [false, false, false] + Padding(pos + 3) + Repeated(false, 16) + Repeated(true, 16)
  }

  const Z_HUFFMAN_ONLY: nat := 2
  const Z_RLE: nat := 3

  datatype Config = Config(good_length: nat, max_lazy: nat, nice_length: nat, max_chain: nat)

  // configuration_table
  function ConfigFor(level: nat): (c: Config)
    ensures level >= 1 ==> c.max_chain >= 4
  {
    if level == 0 then Config(0, 0, 0, 0)
    else if level == 1 then Config(4, 4, 8, 4)
    else if level == 2 then Config(4, 5, 16, 8)
    else if level == 3 then Config(4, 6, 32, 32)
    else if level == 4 then Config(4, 4, 16, 16)
    else if level == 5 then Config(8, 16, 32, 32)
    else if level == 6 then Config(8, 16, 128, 128)
    else if level == 7 then Config(8, 32, 128, 256)
    else if level == 8 then Config(32, 128, 258, 1024)
    else Config(32, 258, 258, 4096)
  }

  lemma BufferSize(memLevel: nat)
    requires 1 <= memLevel <= 9
    ensures 128 <= Pow2(memLevel + 6) <= 0x8000
  {
    Pow2Mono(7, memLevel + 6);
    Pow2Mono(memLevel + 6, 15);
    Pow2Values();
  }

  // A window of 256 bytes is made 512, but no distance beyond 250 is used then.
  lemma EightIsNine(windowBits: nat)
    requires 8 <= windowBits <= 15
    ensures Pow2(if windowBits == 8 then 9 else windowBits) - MIN_LOOKAHEAD <= Pow2(windowBits)
  {
    hide Pow2;
    Pow2Add(8, 1);
    Pow2Values();
  }

  // What has been asked of the compressor so far.
  class Requests {
    ghost var plain: bool    // only Z_NO_FLUSH and Z_FINISH

    constructor ()
      ensures plain
    {
      plain := true;
    }
  }

  // The output side of z_stream, and the last flush mode.
  class Output {
    var given: seq<nat>      // all bytes delivered so far
    var avail_out: nat
    var last_flush: int

    constructor ()
      ensures given == [] && avail_out == 0 && last_flush == 0
    {
      given, avail_out, last_flush := [], 0, 0;
    }
  }

  // What the compression functions have seen and chosen so far, and all tokens made of it.
  class Log {
    ghost var visits: seq<Visit>
    ghost var events: seq<Event>
    ghost var choices: seq<Choice>
    ghost var tokens: seq<Token>

    constructor ()
      ensures visits == [] && events == [] && choices == [] && tokens == []
    {
      visits, events, choices, tokens := [], [], [], [];
    }
  }

  class Compressor {
    const lm: SlidingWindow
    const enc: Encoder
    const strm: Output
    const asked: Requests
    const log: Log
    const max_lazy_match: nat
    const good_match: nat
    const nice_match: nat
    const max_chain_length: nat

    var match_length: nat
    var prev_length: nat
    var prev_match: int
    var match_available: bool
    var finished: bool       // the last block has been written

    // Window and encoder share nothing.
    predicate Separate() {
      && enc.Shape() && lm.Config() && (enc.level > 0 ==> max_chain_length >= 4) && enc.lit_bufsize >= 128
      && lm.window !in EncArrays() && lm.prev !in EncArrays() && lm.head !in EncArrays()
    }

    function EncArrays(): set<array<nat>> {
      {enc.lfc, enc.ldl, enc.dfc, enc.ddl, enc.bfc, enc.bdl, enc.b.heap, enc.b.depth, enc.b.bl_count}
    }

    // Where the current string is in the whole input, and where the current block begins.
    ghost function Here(): nat
      reads lm`base, lm`strstart
    {
      lm.base + lm.strstart
    }

    ghost function BlockStart(): int
      reads lm`base, lm`block_start
    {
      lm.base + lm.block_start
    }

    // What has been delivered is the beginning of the stream.
    ghost predicate Given()
      reads strm`given, enc.w
    {
      IsBytes(strm.given) && BytesBits(strm.given) <= enc.w.Stream() && enc.w.bi_valid <= 7
    }

    // The blocks written so far stand for the input before the current block.
    ghost predicate Flushed()
      reads lm`data, lm`base, lm`block_start, enc, enc.w, enc.b, enc.lfc, enc.dfc, enc.bfc, asked, strm
    {
      && Separate() && enc.Valid() && 0 <= BlockStart() <= |lm.data|
      && ReadsBack(enc.w.Stream(), lm.data[..BlockStart()], false, lm.MaxDist())
      && (asked.plain ==> Lean(|enc.w.Stream()|, BlockStart())) && Given()
    }

    // The tokens stand for the input of the current block up to n.
    ghost predicate Tokens(n: nat)
      reads lm`data, lm`base, lm`block_start, enc`tokens, log`tokens
    {
      && 0 <= BlockStart() <= |lm.data| && Yields(lm.data[..BlockStart()], enc.tokens, lm.data, n)
      && Near(enc.tokens, lm.MaxDist()) && Suffix(enc.tokens, log.tokens)
    }

    ghost function Settings(): Setup {
      Setup(lm.WSize(), lm.hash_bits, lm.hash_shift, Effort(good_match, nice_match, max_chain_length))
    }

    predicate Filtered() {
      enc.strategy == Z_FILTERED
    }

    // The choices of deflate_fast for the input so far.
    ghost predicate FastLog()
      reads lm`data, lm`base, lm`strstart, log
    {
      FastCourse(lm.data, Settings(), log.visits, log.tokens, Here())
    }

    // Those of deflate_slow, and the match that waits.
    ghost predicate SlowLog()
      reads lm`data, lm`base, lm`strstart, lm`match_start, this`match_length, this`match_available, log
    {
      var s := LazyRun(log.events, Filtered());
      && SlowCourse(lm.data, Settings(), max_lazy_match, Filtered(), log.events, log.tokens, s)
      && s.at == Here() && s.prev == match_length && s.open == match_available
      && (match_length >= MIN_MATCH ==> s.dist == lm.strstart - 1 - lm.match_start)
    }

    ghost predicate RleLog()
      reads lm`data, lm`base, lm`strstart, log
    {
      RleCourse(lm.data, log.visits, log.choices, log.tokens, Here())
    }

    ghost predicate HuffLog()
      reads lm`data, lm`base, lm`strstart, log
    {
      HuffCourse(lm.data, log.tokens, Here())
    }

    // All tokens so far are what the compression function should have chosen.
    ghost predicate Logged()
      reads lm`data, lm`base, lm`strstart, lm`match_start, this`match_length, this`match_available, log
    {
      if enc.strategy == Z_HUFFMAN_ONLY then HuffLog()
      else if enc.strategy == Z_RLE then RleLog()
      else if enc.level == 0 then log.tokens == []
      else if enc.level <= 3 then FastLog()
      else SlowLog()
    }

    function Pending(): nat
      reads this`match_available
    {
      if match_available then 1 else 0
    }

    // All input has been written, and the stream is complete: whole bytes, and not too many.
    ghost predicate Complete()
      reads lm`data, enc.w, asked, strm
    {
      && Inflates(enc.w.Stream(), lm.data, lm.MaxDist()) && enc.w.Valid() && enc.w.bi_valid == 0 && Given()
      && (asked.plain ==> |enc.w.Stream()| <= 8 * Bound(|lm.data|))
    }

    // deflateInit2_ and lm_init, for a raw stream.
    constructor (tables: Tables, level: nat, strategy: nat, memLevel: nat, windowBits: nat)
      requires tables.Ok() && level <= 9 && 1 <= memLevel <= 9 && 8 <= windowBits <= 15
      ensures Invariant() && lm.data == [] && lm.input == [] && !finished
      ensures fresh(this) && fresh(lm) && fresh(enc) && fresh(strm) && fresh(asked) && fresh(log) && asked.plain
      ensures log.tokens == [] && lm.MaxDist() <= Pow2(windowBits)
      ensures Config(good_match, max_lazy_match, nice_match, max_chain_length) == ConfigFor(level)
      ensures enc.level == level && enc.strategy == strategy && enc.lit_bufsize == Pow2(memLevel + 6)
      ensures lm.w_bits == (if windowBits == 8 then 9 else windowBits) && lm.hash_bits == memLevel + 7
    {
      hide tables.Ok, ReadsBack, Yields, Holds, Chains, IsBytes, Tallied, Pow2, Flushed, Invariant, BytesBits, ToBits,
           Lean, enc.Valid, Given, Separate, Logged, FastCourse, SlowCourse, RleCourse;
      EightIsNine(windowBits);
      BufferSize(memLevel);
      var c := ConfigFor(level);
      max_lazy_match, good_match, nice_match, max_chain_length := c.max_lazy, c.good_length, c.nice_length, c.max_chain;
      lm := new SlidingWindow(if windowBits == 8 then 9 else windowBits, memLevel + 7);
      enc := new Encoder(tables, level, strategy, Pow2(memLevel + 6));
      asked := new Requests();
      log := new Log();
      strm := new Output();
      match_length, prev_length, prev_match, match_available, finished := MIN_MATCH - 1, MIN_MATCH - 1, 0, false, false;
      new;
      lm.WSizeBounds();
      StartFlushed();
      StartLogged();
      IdleInvariant();
    }

    lemma StartLogged()
      requires lm.data == [] && Here() == 0 && match_length == MIN_MATCH - 1 && !match_available
      requires log.visits == [] && log.events == [] && log.choices == [] && log.tokens == []
      ensures Logged()
    {
      hide FastCourse, SlowCourse, RleCourse;
      FastStart([], Settings());
      SlowStart([], Settings(), max_lazy_match, Filtered());
      RleStart([]);
    }

    lemma StartFlushed()
      requires enc.Valid() && lm.Config() && (enc.level > 0 ==> max_chain_length >= 4) && enc.lit_bufsize >= 128
      requires lm.window !in EncArrays() && lm.prev !in EncArrays() && lm.head !in EncArrays()
      requires enc.w.Stream() == [] && strm.given == [] && lm.data == [] && BlockStart() == 0 && lm.MaxDist() >= 0
      ensures Flushed()
    {
      hide ReadsBack, Pow2, BytesBits, ToBits, enc.Valid, EncArrays, Flushed, Separate, Given, lm.Config;
      ReadsBackNothing(lm.MaxDist());
      BytesBitsNone();
      EncoderShape();
      SeparateNow();
      GivenNow();
      FlushedIs();
    }

    lemma EncoderShape()
      requires enc.Valid()
      ensures enc.Shape() && enc.w.Valid()
    {
    }

    lemma SeparateNow()
      requires enc.Shape() && lm.Config() && (enc.level > 0 ==> max_chain_length >= 4) && enc.lit_bufsize >= 128
      requires lm.window !in EncArrays() && lm.prev !in EncArrays() && lm.head !in EncArrays()
      ensures Separate()
    {
    }

    lemma GivenNow()
      requires enc.w.Valid() && enc.w.Stream() == [] && strm.given == []
      ensures Given()
    {
      hide BytesBits, ToBits;
      BytesBitsNone();
    }

    lemma Apart()
      requires Flushed()
      ensures Separate() && lm.window != lm.prev && lm.window != lm.head && lm.prev != lm.head
      ensures lm.window != enc.lfc && lm.prev != enc.lfc && lm.head != enc.lfc
      ensures lm.window != enc.dfc && lm.prev != enc.dfc && lm.head != enc.dfc
      ensures lm.window != enc.bfc && lm.prev != enc.bfc && lm.head != enc.bfc
    {
      hide enc.Valid, ReadsBack;
      assert enc.lfc in EncArrays() && enc.dfc in EncArrays() && enc.bfc in EncArrays();
    }

    lemma NearBounds()
      requires Separate()
      ensures 250 <= lm.MaxDist() <= 0x8000
    {
      lm.WSizeBounds();
    }

    lemma FlushedParts()
      requires Flushed()
      ensures Separate() && enc.Valid() && 0 <= BlockStart() <= |lm.data|
      ensures ReadsBack(enc.w.Stream(), lm.data[..BlockStart()], false, lm.MaxDist())
      ensures (asked.plain ==> Lean(|enc.w.Stream()|, BlockStart())) && Given()
    {
    }

    lemma FlushedIs()
      requires Separate() && enc.Valid() && 0 <= BlockStart() <= |lm.data|
      requires ReadsBack(enc.w.Stream(), lm.data[..BlockStart()], false, lm.MaxDist())
      requires (asked.plain ==> Lean(|enc.w.Stream()|, BlockStart())) && Given()
      ensures Flushed()
    {
    }

    // What has been delivered has come out of the space there was.
    twostate predicate Supplied()
      reads strm
    {
      && old(strm.given) <= strm.given && |strm.given| + strm.avail_out == old(|strm.given| + strm.avail_out)
      && strm.last_flush == old(strm.last_flush)
    }

    // flush_pending: deliver as much of the pending output as there is room for.
    method FlushPending()
      requires enc.w.Valid() && IsBytes(strm.given) && BytesBits(strm.given) <= enc.w.Stream()
      modifies enc.w, strm`given, strm`avail_out
      ensures enc.w.Valid() && enc.w.Stream() == old(enc.w.Stream()) && (old(enc.Valid()) ==> enc.Valid()) && Given()
      ensures old(enc.w.bi_valid) <= 7 ==> enc.w.bi_valid == old(enc.w.bi_valid) && enc.w.pending == old(enc.w.pending)
      ensures Supplied() && (strm.avail_out > 0 ==> strm.given == enc.w.pending)
    {
      hide enc.Valid, BytesBits, ToBits;
      enc.FlushBits();
      var from := |strm.given|;
      GivenIs(strm.given, enc.w.pending, enc.w.bi_buf, enc.w.bi_valid);
      var len := |enc.w.pending| - from;
      if len > strm.avail_out {
        len := strm.avail_out;
      }
      GivenMore(enc.w.pending, from + len, enc.w.bi_buf, enc.w.bi_valid);
      assert enc.w.pending[..from] + enc.w.pending[from..from + len] == enc.w.pending[..from + len];
      strm.given := strm.given + enc.w.pending[from..from + len];
      strm.avail_out := strm.avail_out - len;
    }

    lemma HeldText()
      requires lm.Held()
      ensures Holds(lm.window[..], lm.data, lm.base, lm.strstart + lm.lookahead)
      ensures lm.strstart + lm.lookahead <= lm.window.Length && |lm.data| == lm.base + lm.strstart + lm.lookahead
    {
    }

    lemma SeparateParts()
      requires Separate()
      ensures 128 <= enc.lit_bufsize <= 0x8000
      ensures lm.window !in EncArrays() && lm.prev !in EncArrays() && lm.head !in EncArrays()
    {
    }

    lemma Members()
      ensures enc.lfc in EncArrays() && enc.dfc in EncArrays() && enc.bfc in EncArrays()
    {
    }

    // The window is large enough for a match at the current string, but not too large.
    lemma Bounds()
      requires Flushed() && lm.Held()
      ensures lm.strstart + lm.lookahead <= 2 * lm.WSize() && 512 <= lm.WSize() <= 0x8000
      ensures |lm.data| == lm.base + lm.strstart + lm.lookahead && 128 <= enc.lit_bufsize <= 0x8000
      ensures lm.window !in EncArrays() && lm.prev !in EncArrays() && lm.head !in EncArrays()
    {
      hide enc.Valid, ReadsBack, Pow2, Holds, EncArrays, Flushed;
      FlushedParts();
      lm.HeldBounds();
      lm.WSizeBounds();
      SeparateParts();
    }

    lemma Configured()
      requires Separate()
      ensures lm.Config() && enc.Shape() && lm.window.Length == 2 * lm.WSize() && lm.prev.Length == lm.WSize()
      ensures enc.level > 0 ==> max_chain_length >= 4
    {
    }

    method TallyLiteral(pos: nat) returns (full: bool)
      requires Flushed() && lm.Held() && pos < lm.strstart + lm.lookahead && Tokens(lm.base + pos)
      requires |enc.tokens| + 1 < enc.lit_bufsize
      modifies enc, enc.lfc, enc.dfc, log`tokens
      ensures Flushed() && Tokens(lm.base + pos + 1) && lm.base + pos < |lm.data|
      ensures log.tokens == old(log.tokens) + [Literal(lm.data[lm.base + pos])]
      ensures |enc.tokens| == |old(enc.tokens)| + 1 && full == (|enc.tokens| == enc.lit_bufsize - 1)
    {
      hide ReadsBack, Yields, enc.Valid;
      lm.HeldAt(pos);
      YieldsLiteral(lm.data[..BlockStart()], enc.tokens, lm.data, lm.base + pos);
      NearPush(enc.tokens, Literal(lm.window[pos]), lm.MaxDist());
      SuffixPush(enc.tokens, log.tokens, Literal(lm.window[pos]));
      log.tokens := log.tokens + [Literal(lm.window[pos])];
      full := enc.Tally(0, lm.window[pos]);
    }

    method TallyMatch(ghost n: nat, len: nat, dist: nat) returns (full: bool)
      requires Flushed() && Tokens(n) && Repeats(lm.data, n, len, dist)
      requires MIN_MATCH <= len <= MAX_MATCH && dist <= lm.MaxDist() && |enc.tokens| + 1 < enc.lit_bufsize
      modifies enc, enc.lfc, enc.dfc, log`tokens
      ensures Flushed() && Tokens(n + len) && log.tokens == old(log.tokens) + [Copy(len, dist)]
      ensures |enc.tokens| == |old(enc.tokens)| + 1 && full == (|enc.tokens| == enc.lit_bufsize - 1)
    {
      hide ReadsBack, Yields, enc.Valid;
      YieldsCopy(lm.data[..BlockStart()], enc.tokens, lm.data, n, len, dist);
      NearPush(enc.tokens, Copy(len, dist), lm.MaxDist());
      SuffixPush(enc.tokens, log.tokens, Copy(len, dist));
      log.tokens := log.tokens + [Copy(len, dist)];
      NearBounds();
      full := enc.Tally(dist, len - MIN_MATCH);
    }

    // The bytes of the current block, unless they are no longer in the window.
    method BlockBuffer() returns (buf: Option<seq<nat>>)
      requires lm.Held() && lm.block_start <= lm.strstart && 0 <= BlockStart()
      ensures buf.Some? <==> lm.block_start >= 0
      ensures buf.Some? ==> IsBytes(buf.value) && |buf.value| == lm.strstart - lm.block_start
      ensures Here() <= |lm.data| && BlockStart() <= |lm.data|
      ensures buf.Some? ==> lm.data[..Here()] == lm.data[..BlockStart()] + buf.value
    {
      hide Holds, IsBytes;
      HeldText();
      buf := None;
      if lm.block_start >= 0 {
        BlockText(lm.window[..], lm.data, lm.base, lm.strstart + lm.lookahead, lm.block_start, lm.strstart);
        buf := Some(lm.window[lm.block_start..lm.strstart]);
      }
    }

    // Write the current block, which ends at the current string.
    method PutCurrent(last: bool)
      requires Flushed() && lm.Held()
      requires (lm.block_start >= 0 ==> lm.block_start <= lm.strstart < lm.block_start + 0x10000)
      requires lm.block_start <= lm.strstart
      requires Tokens(Here()) || (enc.level == 0 && lm.block_start >= 0)
      requires last ==> Here() == |lm.data|
      requires asked.plain && !last ==> (Tokens(Here()) && |enc.tokens| >= 127) || lm.strstart - lm.block_start >= 127
      modifies lm`block_start, enc, enc.w, enc.b, EncArrays()
      ensures lm.block_start == lm.strstart && enc.tokens == [] && Separate() && enc.Valid()
      ensures 0 <= BlockStart() <= |lm.data|
      ensures IsBytes(strm.given) && BytesBits(strm.given) <= enc.w.Stream()
      ensures !last ==> ReadsBack(enc.w.Stream(), lm.data[..BlockStart()], false, lm.MaxDist())
      ensures !last && asked.plain ==> Lean(|enc.w.Stream()|, BlockStart())
      ensures last ==> Inflates(enc.w.Stream(), lm.data, lm.MaxDist()) && enc.w.bi_valid == 0
      ensures last && asked.plain ==> |enc.w.Stream()| <= 8 * Bound(|lm.data|)
    {
      hide ReadsBack, Yields, enc.Valid, Inflates, BlockBits, BlockOk, BlockOutput, Ending, Flushed, Separate,
           lm.Held, lm.Config,
           Blocks.Expand, IsBytes, CostsExact, Chosen, enc.Shape, Decided, Lean, BytesBits, enc.w.Stream, enc.w.Valid,
           Given, Bound;
      FlushedParts();
      GivenParts();
      var buf := BlockBuffer();
      var stored := lm.strstart - lm.block_start;
      ghost var out, full := lm.data[..BlockStart()], lm.data[..Here()];
      YieldsExpand(out, enc.tokens, lm.data, Here());
      if asked.plain && !last {
        EnoughBytes();
      }
      PutBlock(buf, stored, last, out, full);
      lm.block_start := lm.strstart;
      if last {
        assert full == lm.data;
      }
    }

    /**
      FLUSH_BLOCK_ONLY: write the current block, and deliver what there is room for.  At
      level 0 there may be no tokens for the block, but then it must still be in the window.
     */
    method FlushBlockOnly(last: bool)
      requires Flushed() && lm.Held()
      requires (lm.block_start >= 0 ==> lm.block_start <= lm.strstart < lm.block_start + 0x10000)
      requires lm.block_start <= lm.strstart
      requires Tokens(Here()) || (enc.level == 0 && lm.block_start >= 0)
      requires last ==> Here() == |lm.data|
      requires asked.plain && !last ==> (Tokens(Here()) && |enc.tokens| >= 127) || lm.strstart - lm.block_start >= 127
      modifies lm`block_start, enc, enc.w, enc.b, EncArrays(), strm
      ensures lm.block_start == lm.strstart && enc.tokens == []
      ensures !last ==> Flushed() && Tokens(Here())
      ensures last ==> Complete() && enc.Valid()
      ensures Supplied() && (strm.avail_out > 0 ==> strm.given == enc.w.pending)
    {
      hide ReadsBack, Yields, enc.Valid, Inflates, Flushed, Separate, lm.Held, lm.Config, IsBytes, enc.Shape, Lean,
           BytesBits,
           enc.w.Stream, enc.w.Valid, Given, Bound, Complete, EncArrays;
      PutCurrent(last);
      EncoderReady();
      FlushPending();
      if last {
        CompleteIs();
      } else {
        YieldsNothing(lm.data, Here());
        FlushedIs();
      }
    }

    // Write a block that takes the output from out to full.
    method PutBlock(buf: Option<seq<nat>>, stored: nat, last: bool, ghost out: seq<nat>, ghost full: seq<nat>)
      requires enc.Valid() && (Blocks.Expand(out, enc.tokens) == Some(full) || (enc.level == 0 && buf.Some?))
      requires buf.Some? ==> IsBytes(buf.value) && |buf.value| == stored < 0x10000 && full == out + buf.value
      requires ReadsBack(enc.w.Stream(), out, false, lm.MaxDist()) && |full| == |out| + stored
      requires asked.plain ==> Lean(|enc.w.Stream()|, |out|) && (!last ==> stored >= 127)
      requires Near(enc.tokens, lm.MaxDist()) || (enc.level == 0 && buf.Some?)
      modifies enc, enc.w, enc.b, EncArrays()
      ensures enc.Valid() && enc.tokens == [] && old(enc.w.Stream()) <= enc.w.Stream()
      ensures !last ==>
        ReadsBack(enc.w.Stream(), full, false, lm.MaxDist()) && (asked.plain ==> Lean(|enc.w.Stream()|, |full|))
      ensures last ==> Inflates(enc.w.Stream(), full, lm.MaxDist()) && enc.w.bi_valid == 0
      ensures last && asked.plain ==> |enc.w.Stream()| <= 8 * Bound(|full|)
    {
      hide ReadsBack, enc.Valid, Inflates, BlockBits, BlockOk, BlockOutput, Ending, Blocks.Expand, IsBytes,
           CostsExact, Chosen, enc.Shape,
           Decided, Lean, Bound;
      Members();
      ghost var before, ts := enc.w.Stream(), enc.tokens;
      ghost var block, opt, stat;
      block, opt, stat := enc.FlushBlock(buf, stored, last, out, full);
      BlockDecided(block, ts, enc.level, buf, stored, opt, stat, enc.strategy);
      FlushPrice(before, block, ts, enc.level, buf, stored, opt, stat, enc.strategy, out, full, last, asked.plain);
      NearBlock(block, ts, enc.level, buf, stored, opt, stat, enc.strategy, lm.MaxDist());
      ReadsBackBlock(before, out, block, last, lm.MaxDist());
      FlushedEnd(before, BlockBits(block, out, |before|, last), full, last, lm.MaxDist());
    }

    // A block of at least 127 tokens or bytes has at least 127 bytes.
    lemma EnoughBytes()
      requires enc.Valid() && lm.block_start <= lm.strstart && 0 <= BlockStart() <= |lm.data|
      requires (Tokens(Here()) && |enc.tokens| >= 127) || lm.strstart - lm.block_start >= 127
      ensures lm.strstart - lm.block_start >= 127
    {
      hide Blocks.Expand, Tallied, enc.tables.Ok;
      if Tokens(Here()) && |enc.tokens| >= 127 {
        TalliedOk(enc.lfc[..], enc.dfc[..], enc.bfc[..], enc.tokens);
        TokensFew(lm.data[..BlockStart()], enc.tokens);
      }
    }

    // fill_window keeps what has been achieved.
    method Fill(ghost n: nat) returns (ghost taken: seq<nat>)
      requires Flushed() && Tokens(n) && lm.Text() && lm.Strings(lm.strstart - lm.insert)
      requires lm.lookahead < MIN_LOOKAHEAD
      modifies lm, lm.window, lm.prev, lm.head
      ensures Flushed() && Tokens(n) && lm.Text() && lm.Strings(lm.strstart - lm.insert)
      ensures lm.strstart <= 2 * lm.WSize() - MIN_LOOKAHEAD && (lm.lookahead >= MIN_LOOKAHEAD || lm.input == [])
      ensures lm.SamePlace()
      ensures lm.base ==
              if old(lm.strstart) >= lm.WSize() + lm.MaxDist() then old(lm.base) + lm.WSize() else old(lm.base)
      ensures old(lm.input) == taken + lm.input && lm.data == old(lm.data) + taken
      ensures lm.data + lm.input == old(lm.data + lm.input)
    {
      hide ReadsBack, Yields, enc.Valid, lm.Held, lm.Strings, IsBytes;
      ghost var data, bs := lm.data, BlockStart();
      taken := lm.FillWindow();
      SameTotal(data, taken, lm.input);
      YieldsMore(data[..bs], enc.tokens, data, n, taken);
      assert lm.data[..bs] == data[..bs];
    }

    // What deflate_fast keeps from one string to the next.
    ghost predicate FastReady()
      reads this, lm, lm.window, lm.prev, lm.head, enc, enc.w, enc.b, enc.lfc, enc.dfc, enc.bfc, asked, strm
      reads log`tokens
    {
      && Flushed() && Tokens(Here()) && |enc.tokens| + 1 < enc.lit_bufsize
      && lm.Text() && lm.Strings(lm.strstart - lm.insert) && lm.HashReady() && lm.block_start <= lm.strstart
      && match_length < MIN_MATCH && prev_length == MIN_MATCH - 1 && !match_available && enc.level > 0
    }

    /**
      Tally the match found and move past it, inserting the strings on the way if it is not
      too long.
     */
    method FastMatch() returns (bflush: bool)
      requires Flushed() && Tokens(Here()) && |enc.tokens| + 1 < enc.lit_bufsize
      requires lm.Text() && lm.insert == 0 && lm.Strings(lm.strstart + 1) && lm.PrimedAt(lm.strstart + 1)
      requires MIN_MATCH <= match_length <= MAX_MATCH && match_length <= lm.lookahead
      requires lm.strstart <= 2 * lm.WSize() - MIN_LOOKAHEAD && lm.block_start <= lm.strstart
      requires 0 <= lm.match_start < lm.strstart && lm.strstart - lm.match_start <= lm.MaxDist()
      requires Repeats(lm.data, Here(), match_length, lm.strstart - lm.match_start)
      modifies this`match_length, lm, lm.prev, lm.head, enc, enc.lfc, enc.dfc, log`tokens
      ensures Flushed() && Tokens(Here()) && bflush == (|enc.tokens| == enc.lit_bufsize - 1)
      ensures |enc.tokens| < enc.lit_bufsize
      ensures log.tokens == old(log.tokens) + [Copy(old(match_length), old(lm.strstart - lm.match_start))]
      ensures lm.Text() && lm.insert == 0 && lm.Strings(lm.strstart) && lm.HashReady() && match_length < MIN_MATCH
      ensures lm.strstart == old(lm.strstart + match_length) && lm.lookahead == old(lm.lookahead - match_length)
      ensures lm.data == old(lm.data) && lm.base == old(lm.base) && lm.block_start == old(lm.block_start)
      ensures lm.input == old(lm.input)
    {
      hide ReadsBack, Yields, enc.Valid, lm.Held, lm.Strings, IsBytes, Repeats, Pow2, Flushed, lm.PrimedAt, Separate,
           lm.Config, lm.HashReady, Span, Tokens;
      Apart();
      Configured();
      lm.WSizeBounds();
      bflush := TallyMatch(Here(), match_length, lm.strstart - lm.match_start);
      lm.PassMatch(match_length, max_lazy_match);
      match_length := 0;
    }

    // What the current string looks like before a search.
    ghost function Sight(prev: nat): Visit
      reads lm`base, lm`strstart, lm`lookahead, lm`ins
    {
      Visit(lm.base, lm.strstart, lm.lookahead, lm.ins, prev, [], 0, 0)
    }

    lemma SightText(prev: nat)
      requires lm.Held()
      ensures Sight(prev).End() <= |lm.data| && Choices.Text(lm.data, Sight(prev)) == lm.data[lm.base..]
      ensures forall x: nat :: lm.CanMatch(x) <==> Choices.CanMatch(lm.data, Settings(), Sight(prev), x)
    {
      hide Candidate, Pow2, Holds;
      lm.HeldBounds();
    }

    lemma SightHonest(prev: nat, allowed: bool)
      requires lm.Held() && lm.lookahead > 0 && (allowed ==> forall x: nat :: !lm.CanMatch(x))
      ensures Honest(lm.data, Settings(), allowed, Sight(prev))
    {
      hide Candidate, Pow2, Searched, lm.Held, lm.CanMatch;
      SightText(prev);
    }

    lemma FoundHonest(prev: nat, x: nat, seen: seq<nat>, best: nat, start: int)
      requires lm.Held() && lm.lookahead > 0 && lm.CanMatch(x) && lm.Found(prev, Settings().effort, seen, best, start)
      ensures seen != []
      ensures Honest(lm.data, Settings(), true, Sight(prev).(seen := seen, best := best, start := start))
    {
      hide Candidate, Pow2, lm.Held, lm.CanMatch, NoneBetter, FirstOver, Exhausted;
      SightText(prev);
      lm.HeldBounds();
      assert Choices.CanMatch(lm.data, Settings(), Sight(prev).(seen := seen, best := best, start := start), x);
    }

    /**
      Insert the current string and look for a match.
     */
    method FastFind() returns (ghost v: Visit)
      requires FastReady() && lm.lookahead > 0 && lm.strstart <= 2 * lm.WSize() - MIN_LOOKAHEAD
      modifies this`match_length, lm`ins_h, lm`ins, lm`top, lm`match_start, lm.prev, lm.head
      ensures Flushed() && Tokens(Here()) && lm.Text() && lm.Inserted() && match_length <= MAX_MATCH
      ensures match_length >= MIN_MATCH ==>
        lm.lookahead >= MIN_MATCH && match_length <= lm.lookahead && 0 <= lm.match_start
      ensures match_length >= MIN_MATCH ==> MatchAt(Here(), match_length, lm.strstart - lm.match_start)
      ensures Honest(lm.data, Settings(), true, v) && v.prev == MIN_MATCH - 1 && v.At() == Here()
      ensures v.strings == lm.ins && v.here == lm.strstart
      ensures if match_length >= MIN_MATCH then v.Length() == match_length && v.start == lm.match_start
              else v.Length() < MIN_MATCH
    {
      hide ReadsBack, Yields, enc.Valid, lm.Held, lm.Strings, IsBytes, Repeats, Pow2, Flushed, lm.PrimedAt, Separate,
           lm.Config,
           lm.HashReady, lm.Chained, Tokens, Given, EncArrays, lm.CanMatch, lm.Newest, lm.Found, Honest;
      Apart();
      Configured();
      var hashHead := lm.InsertCurrent();
      lm.HeadCandidate(hashHead);
      if hashHead != 0 && lm.strstart - hashHead <= lm.prev.Length - MIN_LOOKAHEAD {
        ghost var best, seen;
        match_length, best, seen := lm.Search(hashHead, prev_length, good_match, nice_match, max_chain_length);
        FoundHonest(prev_length, hashHead, seen, best, lm.match_start);
        v := Sight(prev_length).(seen := seen, best := best, start := lm.match_start);
      } else {
        lm.HeadNone(hashHead);
        SightHonest(prev_length, true);
        v := Sight(prev_length);
      }
    }

    // Take the match that has been found, or a literal.
    method FastTake() returns (bflush: bool, ghost t: Token)
      requires Flushed() && Tokens(Here()) && |enc.tokens| + 1 < enc.lit_bufsize && lm.lookahead > 0
      requires lm.Text() && lm.Inserted() && match_length <= MAX_MATCH && lm.block_start <= lm.strstart
      requires match_length >= MIN_MATCH ==>
        lm.lookahead >= MIN_MATCH && match_length <= lm.lookahead && 0 <= lm.match_start
        && MatchAt(Here(), match_length, lm.strstart - lm.match_start)
      requires lm.strstart <= 2 * lm.WSize() - MIN_LOOKAHEAD
      modifies this`match_length, lm, lm.prev, lm.head, enc, enc.lfc, enc.dfc, log`tokens
      ensures Flushed() && Tokens(Here()) && bflush == (|enc.tokens| == enc.lit_bufsize - 1)
      ensures |enc.tokens| < enc.lit_bufsize && log.tokens == old(log.tokens) + [t] && old(Here()) < |lm.data|
      ensures t == if old(match_length) >= MIN_MATCH then Copy(old(match_length), old(lm.strstart - lm.match_start))
                   else Literal(lm.data[old(Here())])
      ensures lm.Text() && lm.Strings(lm.strstart - lm.insert) && lm.HashReady() && match_length < MIN_MATCH
      ensures lm.strstart == old(lm.strstart) + if old(match_length) >= MIN_MATCH then old(match_length) else 1
      ensures lm.strstart + lm.lookahead == old(lm.strstart + lm.lookahead)
      ensures lm.data == old(lm.data) && lm.base == old(lm.base) && lm.block_start == old(lm.block_start)
      ensures lm.input == old(lm.input)
    {
      hide ReadsBack, Yields, enc.Valid, lm.Held, lm.Strings, IsBytes, Repeats, Pow2, Flushed, lm.PrimedAt, Separate,
           lm.Config,
           lm.HashReady, Tokens, lm.Inserted, Given;
      Apart();
      if match_length >= MIN_MATCH {
        lm.InsertedStrings();
        t := Copy(match_length, lm.strstart - lm.match_start);
        bflush := FastMatch();
      } else {
        bflush := TallyLiteral(lm.strstart);
        t := Literal(lm.data[lm.base + lm.strstart]);
        lm.StepInserted();
      }
    }

    // One string of deflate_fast: a match or a literal.
    method FastStep() returns (bflush: bool)
      requires FastReady() && lm.lookahead > 0 && lm.strstart <= 2 * lm.WSize() - MIN_LOOKAHEAD && FastLog()
      modifies this`match_length, lm, lm.prev, lm.head, enc, enc.lfc, enc.dfc, log
      ensures Flushed() && Tokens(Here()) && bflush == (|enc.tokens| == enc.lit_bufsize - 1)
      ensures |enc.tokens| < enc.lit_bufsize && FastLog()
      ensures lm.Text() && lm.Strings(lm.strstart - lm.insert) && lm.HashReady() && match_length < MIN_MATCH
      ensures old(lm.strstart) < lm.strstart <= old(lm.strstart) + MAX_MATCH
      ensures lm.strstart + lm.lookahead == old(lm.strstart + lm.lookahead)
      ensures lm.data == old(lm.data) && lm.base == old(lm.base) && lm.block_start == old(lm.block_start)
      ensures lm.input == old(lm.input)
    {
      hide ReadsBack, Yields, enc.Valid, lm.Held, lm.Strings, IsBytes, Repeats, Pow2, Flushed, lm.PrimedAt, Separate,
           lm.Config,
           lm.HashReady, lm.Chained, Tokens, lm.Inserted, Given, Honest, FastCourse;
      ghost var n, visits, tokens := Here(), log.visits, log.tokens;
      ghost var v := FastFind();
      ghost var t;
      bflush, t := FastTake();
      FastPush(lm.data, Settings(), visits, tokens, n, v, t);
      log.visits := visits + [v];
    }

    // What a compression function has achieved when it returns.
    ghost predicate Achieved(st: BlockState, total: seq<nat>)
      reads this, lm, lm.window, lm.prev, lm.head, enc, enc.w, enc.b, enc.lfc, enc.dfc, enc.bfc, asked, strm
    {
      && lm.data + lm.input == total
      && (st == BlockDone ==> Flushed() && lm.input == [] && BlockStart() == |lm.data| && enc.tokens == [])
      && ((st == FinishStarted || st == FinishDone) <==> finished)
      && (finished ==> lm.input == [] && Complete())
      && (st == FinishStarted ==> strm.avail_out == 0)
      && (st == FinishDone ==> strm.avail_out > 0 && strm.given == enc.w.pending)
    }

    // Write the last block of a call, when all input has been processed.
    method FinishCall(flush: Flush) returns (st: BlockState)
      requires Flushed() && Tokens(Here()) && lm.Text() && lm.lookahead == 0 && lm.input == [] && !finished
      requires |enc.tokens| < enc.lit_bufsize
      requires lm.block_start >= 0 ==> lm.block_start <= lm.strstart < lm.block_start + 0x10000
      requires lm.block_start <= lm.strstart
      requires asked.plain ==> flush == Finish
      modifies `finished, lm`block_start, enc, enc.w, enc.b, EncArrays(), strm
      ensures Achieved(st, lm.data + lm.input)
      ensures (flush == Finish ==> st != BlockDone) && (finished ==> flush == Finish)
      ensures !finished ==> Flushed() && Tokens(Here()) && lm.block_start <= lm.strstart
      ensures enc.tokens == []
      ensures (st == NeedMore && flush != NoFlush ==> strm.avail_out == 0) && Supplied()
    {
      hide ReadsBack, Yields, enc.Valid, lm.Held, IsBytes, Flushed, Separate, Inflates;
      lm.HeldBounds();
      if flush == Finish {
        FlushBlockOnly(true);
        finished := true;
        st := if strm.avail_out == 0 then FinishStarted else FinishDone;
        return;
      }
      if enc.tokens != [] {
        FlushBlockOnly(false);
        if strm.avail_out == 0 {
          return NeedMore;
        }
      }
      NoTokens(lm.data[..BlockStart()], enc.tokens, lm.data, Here());
      st := BlockDone;
    }

    // Refill the window if the lookahead is short; report whether to wait or to finish.
    method FastFill(flush: Flush) returns (wait: bool, end: bool)
      requires FastReady() && FastLog()
      modifies lm, lm.window, lm.prev, lm.head
      ensures FastReady() && FastLog() && lm.data + lm.input == old(lm.data + lm.input)
      ensures lm.lookahead + |lm.input| == old(lm.lookahead + |lm.input|)
      ensures end ==> flush != NoFlush
      ensures end ==> lm.lookahead == 0 && lm.input == [] && lm.strstart < 0x10000
      ensures !end ==> wait || (lm.lookahead > 0 && lm.strstart <= 2 * lm.WSize() - MIN_LOOKAHEAD)
      ensures wait ==> flush == NoFlush
    {
      hide ReadsBack, Yields, enc.Valid, lm.Held, lm.Strings, IsBytes, Flushed, Separate, Tokens, lm.HashReady, Pow2,
           lm.Config, EncArrays, FastCourse;
      Bounds();
      wait, end := false, false;
      if lm.lookahead < MIN_LOOKAHEAD {
        ghost var data, n := lm.data, Here();
        ghost var taken := Fill(n);
        FastMore(data, Settings(), log.visits, log.tokens, n, taken);
        Bounds();
        if lm.lookahead < MIN_LOOKAHEAD && flush == NoFlush {
          wait := true;
        } else if lm.lookahead == 0 {
          end := true;
        }
      }
    }

    // One string, and a block when the buffer is full.
    method FastEmit() returns (stop: bool)
      requires FastReady() && FastLog() && lm.lookahead > 0 && lm.strstart <= 2 * lm.WSize() - MIN_LOOKAHEAD
      modifies this`match_length, lm, lm.prev, lm.head, enc, enc.w, enc.b, EncArrays(), strm, log
      ensures FastReady() && FastLog()
      ensures lm.data == old(lm.data) && lm.input == old(lm.input) && lm.lookahead < old(lm.lookahead)
      ensures (stop ==> strm.avail_out == 0) && Supplied()
    {
      hide ReadsBack, Yields, enc.Valid, lm.Held, lm.Strings, IsBytes, Flushed, Separate, Tokens, lm.HashReady, Pow2,
           lm.Config, EncArrays, FastCourse;
      Bounds();
      Members();
      var bflush := FastStep();
      stop := false;
      if bflush {
        FlushBlockOnly(false);
        stop := strm.avail_out == 0;
      }
    }

    /**
      deflate_fast: every match that is found is taken.
     */
    method DeflateFast(flush: Flush) returns (st: BlockState)
      requires FastReady() && FastLog() && !finished
      requires asked.plain ==> flush in {NoFlush, Finish}
      modifies this, lm, lm.window, lm.prev, lm.head, enc, enc.w, enc.b, EncArrays(), strm, log
      ensures Achieved(st, old(lm.data + lm.input))
      ensures asked.plain ==> st != BlockDone
      ensures (flush == Finish ==> st != BlockDone) && (finished ==> flush == Finish)
      ensures FastLog() && (!finished ==> FastReady())
      ensures (st == NeedMore && flush != NoFlush ==> strm.avail_out == 0) && Supplied()
    {
      hide ReadsBack, Yields, enc.Valid, lm.Held, lm.Strings, IsBytes, Flushed, Separate, Inflates, Tokens,
           lm.HashReady, Pow2, lm.Config, EncArrays,
           FastReady, FastCourse;
      ghost var total := lm.data + lm.input;
      while true
        invariant FastReady() && FastLog() && !finished && lm.data + lm.input == total && Supplied()
        decreases lm.lookahead + |lm.input|
      {
        var wait, end := FastFill(flush);
        if wait {
          return NeedMore;
        }
        if end {
          break;
        }
        var stop := FastEmit();
        if stop {
          return NeedMore;
        }
      }
      st := FastEnd(flush);
    }

    // The input has been processed: write what remains.
    method FastEnd(flush: Flush) returns (st: BlockState)
      requires FastReady() && FastLog() && !finished && lm.lookahead == 0 && lm.input == [] && lm.strstart < 0x10000
      requires asked.plain ==> flush == Finish
      modifies `finished, lm`block_start, lm`insert, enc, enc.w, enc.b, EncArrays(), strm
      ensures Achieved(st, lm.data + lm.input) && lm.data == old(lm.data) && lm.input == old(lm.input)
      ensures (flush == Finish ==> st != BlockDone) && (finished ==> flush == Finish)
      ensures FastLog() && (!finished ==> FastReady())
      ensures (st == NeedMore && flush != NoFlush ==> strm.avail_out == 0) && Supplied()
    {
      hide ReadsBack, Yields, enc.Valid, lm.Held, lm.Strings, IsBytes, Flushed, Separate, Inflates, Tokens,
           lm.HashReady, Pow2, lm.Config, EncArrays, FastCourse;
      Bounds();
      lm.EndInput();
      st := FinishCall(flush);
    }

    // A match of the string at n, usable as a token.
    ghost predicate MatchAt(n: int, len: nat, dist: int)
      reads lm`data
    {
      && 0 <= n && MIN_MATCH <= len <= MAX_MATCH && 1 <= dist <= lm.MaxDist()
      && Repeats(lm.data, n, len, dist)
    }

    // What deflate_slow keeps from one string to the next: a match of the previous string
    // is remembered.
    ghost predicate SlowReady()
      reads this, lm, lm.window, lm.prev, lm.head, enc, enc.w, enc.b, enc.lfc, enc.dfc, enc.bfc, asked, strm
      reads log`tokens
    {
      && lm.strstart >= Pending() && lm.block_start <= lm.strstart - Pending()
      && Flushed() && Tokens(Here() - Pending()) && |enc.tokens| + 1 < enc.lit_bufsize
      && lm.Text() && lm.Strings(lm.strstart - lm.insert) && lm.HashReady() && enc.level > 0
      && MIN_MATCH - 1 <= match_length <= MAX_MATCH
      && (match_length >= MIN_MATCH ==>
            match_available && lm.insert == 0 && match_length <= lm.lookahead + 1
            && MatchAt(Here() - 1, match_length, lm.strstart - 1 - lm.match_start))
    }

    // Insert the current string, and search for a longer match unless the one at hand will do.
    method SlowSearch() returns (searched: bool, len: nat, ghost v: Visit)
      requires Flushed() && lm.Text() && lm.Strings(lm.strstart - lm.insert) && lm.HashReady() && enc.level > 0
      requires lm.strstart <= 2 * lm.WSize() - MIN_LOOKAHEAD && MIN_MATCH - 1 <= prev_length <= MAX_MATCH
      requires lm.lookahead > 0
      modifies lm.prev, lm.head, lm`ins_h, lm`ins, lm`top, lm`match_start
      ensures Flushed() && lm.Text() && lm.Inserted()
      ensures searched ==> lm.lookahead >= MIN_MATCH && MIN_MATCH - 1 <= len <= MAX_MATCH && len <= lm.lookahead
      ensures searched && len > prev_length ==>
        0 <= lm.match_start < lm.strstart && lm.strstart - lm.match_start <= lm.MaxDist()
        && Repeats(lm.data, Here(), len, lm.strstart - lm.match_start)
      ensures Honest(lm.data, Settings(), prev_length < max_lazy_match, v) && v.prev == prev_length
      ensures v.At() == Here() && v.strings == lm.ins && v.here == lm.strstart
      ensures searched <==> v.seen != []
      ensures searched ==> len == v.Length() && v.start == lm.match_start
    {
      hide ReadsBack, enc.Valid, lm.Held, lm.Strings, IsBytes, Repeats, Pow2, Flushed, lm.PrimedAt, Separate, lm.Config,
           lm.HashReady, lm.Inserted, EncArrays, lm.CanMatch, lm.Found, Honest, Given, Lean;
      Apart();
      Configured();
      ghost var best, seen;
      searched, len, best, seen := lm.InsertAndSearch(prev_length < max_lazy_match, prev_length, good_match, nice_match,
            max_chain_length);
      if searched {
        ghost var x: nat :| lm.CanMatch(x);
        FoundHonest(prev_length, x, seen, best, lm.match_start);
        v := Sight(prev_length).(seen := seen, best := best, start := lm.match_start);
      } else {
        SightHonest(prev_length, prev_length < max_lazy_match);
        v := Sight(prev_length);
      }
    }

    /**
      Insert the current string and look for a match longer than the previous one.
     */
    method SlowFind() returns (ghost v: Visit)
      requires Flushed() && lm.Text() && lm.Strings(lm.strstart - lm.insert) && lm.HashReady() && enc.level > 0
      requires lm.strstart <= 2 * lm.WSize() - MIN_LOOKAHEAD && MIN_MATCH - 1 <= match_length <= MAX_MATCH
      requires lm.lookahead > 0
      modifies `match_length, `prev_length, `prev_match, lm.prev, lm.head, lm`ins_h, lm`ins, lm`top, lm`match_start
      ensures Flushed() && lm.Text() && lm.Inserted()
      ensures prev_length == old(match_length) && prev_match == old(lm.match_start)
      ensures MIN_MATCH - 1 <= match_length <= MAX_MATCH
      ensures match_length >= MIN_MATCH && match_length > prev_length ==>
        && lm.lookahead >= MIN_MATCH && match_length <= lm.lookahead
        && MatchAt(Here(), match_length, lm.strstart - lm.match_start)
      ensures Honest(lm.data, Settings(), prev_length < max_lazy_match, v) && v.prev == prev_length
      ensures v.At() == Here() && v.strings == lm.ins && v.here == lm.strstart
      ensures match_length == v.Kept(Filtered()) && (match_length >= MIN_MATCH ==> v.start == lm.match_start)
    {
      hide ReadsBack, enc.Valid, lm.Held, lm.Strings, IsBytes, Repeats, Pow2, Flushed, lm.PrimedAt, Separate, lm.Config,
           lm.HashReady, lm.Inserted, EncArrays, Honest;
      prev_length, prev_match := match_length, lm.match_start;
      match_length := MIN_MATCH - 1;
      var searched, len;
      searched, len, v := SlowSearch();
      if searched {
        match_length := len;
        if match_length <= 5
           && (enc.strategy == Z_FILTERED || (match_length == MIN_MATCH && lm.strstart - lm.match_start > TOO_FAR)) {
          // too short to pay, or too far for a match of three
          match_length := MIN_MATCH - 1;
        }
      }
    }

    // The match of the previous string is better: take it.
    method SlowMatch(ghost t: Token) returns (bflush: bool)
      requires lm.strstart >= 1 && Flushed() && Tokens(Here() - 1) && |enc.tokens| + 1 < enc.lit_bufsize
      requires lm.Text() && lm.Inserted() && lm.insert == 0 && MIN_MATCH <= prev_length <= lm.lookahead + 1
      requires MatchAt(Here() - 1, prev_length, lm.strstart - 1 - prev_match)
      requires t == Copy(prev_length, lm.strstart - 1 - prev_match)
      modifies `match_length, `match_available, `prev_length, lm.prev, lm.head, lm`strstart, lm`lookahead, lm`ins_h
      modifies lm`ins, lm`top,
               enc, enc.lfc, enc.dfc, log`tokens
      ensures log.tokens == old(log.tokens) + [t]
      ensures Flushed() && Tokens(Here()) && bflush == (|enc.tokens| == enc.lit_bufsize - 1)
      ensures |enc.tokens| < enc.lit_bufsize
      ensures lm.Text() && lm.Strings(lm.strstart - lm.insert) && lm.HashReady()
      ensures !match_available && match_length == MIN_MATCH - 1
      ensures lm.strstart == old(lm.strstart + prev_length) - 1 && lm.lookahead == old(lm.lookahead - prev_length) + 1
    {
      hide ReadsBack, Yields, enc.Valid, lm.Held, lm.Strings, IsBytes, Repeats, Pow2, Flushed, lm.PrimedAt, Separate,
           lm.Config,
           lm.HashReady, lm.Inserted, EncArrays, Tokens, Span, Suffix, Given, Lean;
      Apart();
      Configured();
      bflush := TallyMatch(Here() - 1, prev_length, lm.strstart - 1 - prev_match);
      lm.PassPrevious(prev_length);
      prev_length := 0;
      match_available := false;
      match_length := MIN_MATCH - 1;
    }

    // No match is taken: the previous byte, if any, is a literal, and the current string waits.
    method SlowLiteral() returns (bflush: bool, tallied: bool)
      requires lm.strstart >= Pending() && lm.block_start <= lm.strstart - Pending()
      requires Flushed() && Tokens(Here() - Pending()) && |enc.tokens| + 1 < enc.lit_bufsize
      requires lm.Text() && lm.lookahead > 0
      modifies `match_available, enc, enc.lfc, enc.dfc, log`tokens
      ensures Flushed() && Tokens(Here()) && |enc.tokens| < enc.lit_bufsize && match_available
      ensures old(match_available) ==> 1 <= Here() <= |lm.data|
      ensures log.tokens == old(log.tokens) + if old(match_available) then [Literal(lm.data[Here() - 1])] else []
      ensures bflush ==> |enc.tokens| == enc.lit_bufsize - 1
      ensures !bflush ==> |enc.tokens| + 1 < enc.lit_bufsize
      ensures tallied == old(match_available)
    {
      hide ReadsBack, Yields, enc.Valid, lm.Held, IsBytes, Pow2, Flushed, Separate, lm.Config, EncArrays, Tokens;
      Apart();
      tallied, bflush := match_available, false;
      if match_available {
        bflush := TallyLiteral(lm.strstart - 1);
      } else {
        match_available := true;
      }
    }

    // The state of deflate_slow after the search at the current string.
    ghost predicate SlowFound()
      reads this, lm, lm.window, lm.prev, lm.head, enc, enc.w, enc.b, enc.lfc, enc.dfc, enc.bfc, asked, strm
      reads log`tokens
    {
      && lm.strstart >= Pending() && lm.block_start <= lm.strstart - Pending()
      && lm.strstart <= 2 * lm.WSize() - MIN_LOOKAHEAD
      && Flushed() && Tokens(Here() - Pending()) && |enc.tokens| + 1 < enc.lit_bufsize
      && lm.Text() && lm.Inserted() && lm.lookahead > 0 && enc.level > 0
      && MIN_MATCH - 1 <= match_length <= MAX_MATCH
      && (prev_length >= MIN_MATCH ==>
            match_available && lm.insert == 0 && prev_length <= lm.lookahead + 1
            && MatchAt(Here() - 1, prev_length, lm.strstart - 1 - prev_match))
      && (match_length >= MIN_MATCH && match_length > prev_length ==>
            lm.lookahead >= MIN_MATCH && match_length <= lm.lookahead
            && MatchAt(Here(), match_length, lm.strstart - lm.match_start))
    }

    // What deflate_slow is about to decide: v is the visit of the current string.
    ghost predicate SlowSeen(v: Visit)
      reads lm`data, lm`base, lm`strstart, lm`match_start
      reads this`match_length, this`prev_length, this`prev_match, this`match_available, log
    {
      var s := LazyRun(log.events, Filtered());
      && SlowCourse(lm.data, Settings(), max_lazy_match, Filtered(), log.events, log.tokens, s)
      && s.at == Here() && s.prev == prev_length && s.open == match_available
      && (prev_length >= MIN_MATCH ==> s.dist == lm.strstart - 1 - prev_match)
      && Fits(lm.data, Settings(), max_lazy_match, s, Looked(v)) && v.here == lm.strstart
      && match_length == v.Kept(Filtered()) && (match_length >= MIN_MATCH ==> v.start == lm.match_start)
    }

    // The match that waits has been taken.
    lemma MatchLogged(v: Visit, events: seq<Event>, tokens: seq<Token>, s: Lazy, t: Token)
      requires s == LazyRun(events, Filtered())
      requires SlowCourse(lm.data, Settings(), max_lazy_match, Filtered(), events, tokens, s)
      requires Fits(lm.data, Settings(), max_lazy_match, s, Looked(v))
      requires s.prev >= MIN_MATCH && v.Kept(Filtered()) <= s.prev && s.at > 0 && t == Copy(s.prev, s.dist)
      requires log.events == events + [Looked(v)] && log.tokens == tokens + [t]
      requires Here() == s.at - 1 + s.prev && match_length == MIN_MATCH - 1 && !match_available
      ensures SlowLog()
    {
      hide Honest, LazyRun, Stands;
      var c := Match(s.at - 1, s.prev, s.dist);
      assert Stands(lm.data, c, t) by { MatchStands(lm.data, s.at - 1, s.prev, s.dist); }
      MadePush(lm.data, s.choices, tokens, c, t);
      SlowPush(lm.data, Settings(), max_lazy_match, Filtered(), events, tokens, s, Looked(v), [t]);
      LazyPush(events, Filtered(), Looked(v));
    }

    // The byte that waits, if any, has become a literal.
    lemma ByteLogged(e: Event, events: seq<Event>, tokens: seq<Token>, s: Lazy, more: seq<Token>)
      requires s == LazyRun(events, Filtered())
      requires SlowCourse(lm.data, Settings(), max_lazy_match, Filtered(), events, tokens, s)
      requires Fits(lm.data, Settings(), max_lazy_match, s, e)
      requires e.Looked? ==> !(s.prev >= MIN_MATCH && e.v.Kept(Filtered()) <= s.prev)
      requires s.open ==> 0 < s.at <= |lm.data|
      requires more == if s.open then [Literal(lm.data[s.at - 1])] else []
      requires log.events == events + [e] && log.tokens == tokens + more
      requires match_available == e.Looked?
      requires Here() == s.at + (if e.Looked? then 1 else 0)
      requires match_length == if e.Looked? then e.v.Kept(Filtered()) else s.prev
      requires e.Looked? && match_length >= MIN_MATCH ==>
        e.v.here == lm.strstart - 1 && e.v.start == lm.match_start < e.v.here
      ensures SlowLog()
    {
      hide Honest, LazyRun, Stands, Made;
      MadeEnd(lm.data, s.choices, tokens);
      if s.open {
        var c, t := Byte(s.at - 1), Literal(lm.data[s.at - 1]);
        assert Stands(lm.data, c, t) by { ByteStands(lm.data, s.at - 1); }
        MadePush(lm.data, s.choices, tokens, c, t);
      }
      assert LazyStep(s, Filtered(), e).choices == s.choices + Waiting(s);
      SlowPush(lm.data, Settings(), max_lazy_match, Filtered(), events, tokens, s, e, more);
      LazyPush(events, Filtered(), e);
    }

    // Take the match of the previous string, and write a block when the buffer is full.
    method TakeMatch(ghost t: Token) returns (stop: bool)
      requires SlowFound() && prev_length >= MIN_MATCH && lm.strstart - 1 - prev_match >= 0
      requires t == Copy(prev_length, lm.strstart - 1 - prev_match)
      modifies `match_length, `prev_length, `match_available, lm, lm.prev, lm.head, enc, enc.w, enc.b, EncArrays()
      modifies strm, log`tokens
      ensures SlowReady() && !match_available && match_length == MIN_MATCH - 1
      ensures Here() == old(Here() + prev_length) - 1 && old(lm.strstart) >= 1
      ensures log.tokens == old(log.tokens) + [t]
      ensures lm.data == old(lm.data) && lm.input == old(lm.input) && lm.lookahead < old(lm.lookahead)
      ensures (stop ==> strm.avail_out == 0) && Supplied()
    {
      hide ReadsBack, Yields, enc.Valid, lm.Held, lm.Strings, IsBytes, Repeats, Pow2, Flushed, lm.PrimedAt, Separate,
           lm.Config,
           lm.HashReady, lm.Inserted, EncArrays, Tokens, Given;
      Bounds();
      Members();
      var bflush := SlowMatch(t);
      stop := false;
      if bflush {
        FlushBlockOnly(false);
        stop := strm.avail_out == 0;
      }
    }

    lemma WaitedDistance()
      requires SlowFound() && prev_length >= MIN_MATCH
      ensures lm.strstart >= 1 && prev_match < lm.strstart - 1
    {
      hide Flushed, Tokens, lm.Text, lm.Inserted, Repeats;
    }

    // The match of the previous string is taken.
    method EmitMatch(ghost v: Visit) returns (stop: bool)
      requires SlowFound() && prev_length >= MIN_MATCH && match_length <= prev_length && SlowSeen(v)
      modifies `match_length, `prev_length, `match_available, lm, lm.prev, lm.head, enc, enc.w, enc.b, EncArrays()
      modifies strm, log
      ensures SlowReady() && SlowLog()
      ensures lm.data == old(lm.data) && lm.input == old(lm.input) && lm.lookahead < old(lm.lookahead)
      ensures (stop ==> strm.avail_out == 0) && Supplied()
    {
      hide SlowFound, SlowReady, EncArrays, SlowCourse, LazyRun, Fits;
      ghost var events, tokens, s := log.events, log.tokens, LazyRun(log.events, Filtered());
      WaitedDistance();
      ghost var t := Copy(prev_length, lm.strstart - 1 - prev_match);
      stop := TakeMatch(t);
      log.events := events + [Looked(v)];
      MatchLogged(v, events, tokens, s, t);
    }

    // The literal of the previous string, if any, and a block when the buffer is full.
    method LiteralBlock() returns (tallied: bool)
      requires SlowFound()
      modifies `match_available, lm`block_start, enc, enc.w, enc.b, EncArrays(), strm, log`tokens
      ensures Flushed() && Tokens(Here()) && |enc.tokens| + 1 < enc.lit_bufsize && match_available
      ensures old(match_available) ==> 1 <= Here() <= |lm.data|
      ensures log.tokens == old(log.tokens) + if old(match_available) then [Literal(lm.data[Here() - 1])] else []
      ensures lm.Held() && lm.block_start <= lm.strstart && Supplied()
    {
      hide ReadsBack, Yields, enc.Valid, lm.Held, lm.Strings, IsBytes, Repeats, Pow2, Flushed, lm.PrimedAt, Separate,
           lm.Config,
           lm.HashReady, lm.Inserted, EncArrays, Tokens, Given;
      Bounds();
      Members();
      var bflush;
      bflush, tallied := SlowLiteral();
      if bflush {
        FlushBlockOnly(false);
      }
      Bounds();
    }

    // The previous byte, if any, becomes a literal, and the current string waits.
    method PassLiteral() returns (stop: bool)
      requires SlowFound() && !(prev_length >= MIN_MATCH && match_length <= prev_length)
      modifies `match_available, lm, enc, enc.w, enc.b, EncArrays(), strm, log`tokens
      ensures SlowReady() && match_available && Here() == old(Here()) + 1 && lm.match_start == old(lm.match_start)
      ensures old(match_available) ==> 1 <= old(Here()) <= |lm.data|
      ensures log.tokens == old(log.tokens) + if old(match_available) then [Literal(lm.data[old(Here()) - 1])] else []
      ensures lm.strstart == old(lm.strstart) + 1
      ensures lm.data == old(lm.data) && lm.input == old(lm.input) && lm.lookahead < old(lm.lookahead)
      ensures (stop ==> strm.avail_out == 0) && Supplied()
    {
      hide ReadsBack, Yields, enc.Valid, lm.Held, lm.Strings, IsBytes, Repeats, Pow2, Flushed, lm.PrimedAt, Separate,
           lm.Config,
           lm.HashReady, lm.Inserted, EncArrays, Tokens, Given;
      Bounds();
      Members();
      if match_length >= MIN_MATCH {
        lm.InsertedStrings();
      }
      var tallied := LiteralBlock();
      lm.StepInserted();
      stop := tallied && strm.avail_out == 0;
    }

    lemma WaitingDistance()
      requires SlowFound() && match_length >= MIN_MATCH && match_length > prev_length
      ensures lm.match_start < lm.strstart
    {
      hide Flushed, Tokens, lm.Text, lm.Inserted, Repeats;
    }

    // No match is taken.
    method EmitLiteral(ghost v: Visit) returns (stop: bool)
      requires SlowFound() && !(prev_length >= MIN_MATCH && match_length <= prev_length) && SlowSeen(v)
      modifies `match_available, lm, enc, enc.w, enc.b, EncArrays(), strm, log
      ensures SlowReady() && SlowLog()
      ensures lm.data == old(lm.data) && lm.input == old(lm.input) && lm.lookahead < old(lm.lookahead)
      ensures (stop ==> strm.avail_out == 0) && Supplied()
    {
      hide SlowFound, SlowReady, EncArrays, SlowCourse, LazyRun, Fits;
      ghost var events, tokens, s := log.events, log.tokens, LazyRun(log.events, Filtered());
      if match_length >= MIN_MATCH {
        WaitingDistance();
      }
      stop := PassLiteral();
      log.events := events + [Looked(v)];
      ByteLogged(Looked(v), events, tokens, s, if s.open then [Literal(lm.data[s.at - 1])] else []);
    }

    /**
      One string of deflate_slow: the match of the previous string is taken if the current one
      is not better, otherwise the previous byte becomes a literal.
     */
    method SlowEmit() returns (stop: bool)
      requires SlowReady() && SlowLog() && lm.lookahead > 0 && lm.strstart <= 2 * lm.WSize() - MIN_LOOKAHEAD
      modifies `match_length, `prev_length, `prev_match, `match_available, lm, lm.prev, lm.head, enc, enc.w, enc.b
      modifies EncArrays(), strm, log
      ensures SlowReady() && SlowLog()
      ensures lm.data == old(lm.data) && lm.input == old(lm.input) && lm.lookahead < old(lm.lookahead)
      ensures (stop ==> strm.avail_out == 0) && Supplied()
    {
      hide ReadsBack, Yields, enc.Valid, lm.Held, lm.Strings, IsBytes, Repeats, Pow2, Flushed, lm.PrimedAt, Separate,
           lm.Config,
           lm.HashReady, lm.Inserted, EncArrays, Tokens, SlowCourse, LazyRun, Honest;
      Bounds();
      Members();
      Apart();
      ghost var v := SlowFind();
      if prev_length >= MIN_MATCH && match_length <= prev_length {
        stop := EmitMatch(v);
      } else {
        stop := EmitLiteral(v);
      }
    }

    // Refill the window if the lookahead is short; report whether to wait or to finish.
    method SlowFill(flush: Flush) returns (wait: bool, end: bool)
      requires SlowReady() && SlowLog()
      modifies lm, lm.window, lm.prev, lm.head
      ensures SlowReady() && SlowLog() && lm.data + lm.input == old(lm.data + lm.input)
      ensures lm.lookahead + |lm.input| == old(lm.lookahead + |lm.input|)
      ensures end ==> flush != NoFlush
      ensures end ==> lm.lookahead == 0 && lm.input == [] && lm.strstart < 0x10000
      ensures !end ==> wait || (lm.lookahead > 0 && lm.strstart <= 2 * lm.WSize() - MIN_LOOKAHEAD)
      ensures wait ==> flush == NoFlush
    {
      hide ReadsBack, Yields, enc.Valid, lm.Held, lm.Strings, IsBytes, Flushed, Separate, Tokens, lm.HashReady, Pow2,
           lm.Config, EncArrays, Repeats, SlowCourse, LazyRun;
      Bounds();
      wait, end := false, false;
      if lm.lookahead < MIN_LOOKAHEAD {
        ghost var data, n, dist := lm.data, Here() - 1, lm.strstart - 1 - lm.match_start;
        ghost var taken := Fill(Here() - Pending());
        SlowMore(data, Settings(), max_lazy_match, Filtered(), log.events, log.tokens,
              LazyRun(log.events, Filtered()), taken);
        Bounds();
        if match_length >= MIN_MATCH {
          RepeatsMore(data, n, match_length, dist, taken);
        }
        if lm.lookahead < MIN_LOOKAHEAD && flush == NoFlush {
          wait := true;
        } else if lm.lookahead == 0 {
          end := true;
        }
      }
    }

    // The byte that is still pending is a literal.
    method SlowLast()
      requires SlowReady() && SlowLog() && lm.lookahead == 0
      modifies `match_available, enc, enc.lfc, enc.dfc, log
      ensures Flushed() && Tokens(Here()) && |enc.tokens| < enc.lit_bufsize && !match_available && SlowLog()
      ensures lm.block_start <= lm.strstart
      ensures lm.Text() && lm.Strings(lm.strstart - lm.insert)
    {
      hide ReadsBack, Yields, enc.Valid, lm.Held, lm.Strings, IsBytes, Flushed, Separate, Tokens, lm.HashReady, Pow2,
           lm.Config,
           EncArrays, Repeats, Given, SlowCourse, LazyRun;
      Bounds();
      Members();
      Apart();
      ghost var events, tokens, s := log.events, log.tokens, LazyRun(log.events, Filtered());
      if match_available {
        var bflush := TallyLiteral(lm.strstart - 1);
        match_available := false;
      }
      log.events := events + [Ended];
      ByteLogged(Ended, events, tokens, s, if s.open then [Literal(lm.data[s.at - 1])] else []);
    }

    // The input has been processed: write what remains.
    method SlowEnd(flush: Flush) returns (st: BlockState)
      requires SlowReady() && SlowLog() && !finished && lm.lookahead == 0 && lm.input == [] && lm.strstart < 0x10000
      requires asked.plain ==> flush == Finish
      modifies `finished, `match_available, lm`block_start, lm`insert, enc, enc.w, enc.b, EncArrays(), strm, log
      ensures Achieved(st, lm.data + lm.input) && lm.data == old(lm.data) && lm.input == old(lm.input)
      ensures (flush == Finish ==> st != BlockDone) && (finished ==> flush == Finish)
      ensures SlowLog() && (!finished ==> SlowReady())
      ensures (st == NeedMore && flush != NoFlush ==> strm.avail_out == 0) && Supplied()
    {
      hide ReadsBack, Yields, enc.Valid, lm.Held, lm.Strings, IsBytes, Flushed, Separate, Inflates, Tokens,
           lm.HashReady, Pow2, lm.Config, EncArrays, Repeats, SlowLog;
      Bounds();
      Members();
      SlowLast();
      lm.EndInput();
      st := FinishCall(flush);
    }

    /**
      deflate_slow: a match waits until the next string has been searched.
     */
    method DeflateSlow(flush: Flush) returns (st: BlockState)
      requires SlowReady() && SlowLog() && !finished
      requires asked.plain ==> flush in {NoFlush, Finish}
      modifies this, lm, lm.window, lm.prev, lm.head, enc, enc.w, enc.b, EncArrays(), strm, log
      ensures Achieved(st, old(lm.data + lm.input))
      ensures asked.plain ==> st != BlockDone
      ensures (flush == Finish ==> st != BlockDone) && (finished ==> flush == Finish)
      ensures SlowLog() && (!finished ==> SlowReady())
      ensures (st == NeedMore && flush != NoFlush ==> strm.avail_out == 0) && Supplied()
    {
      hide ReadsBack, Yields, enc.Valid, lm.Held, lm.Strings, IsBytes, Flushed, Separate, Inflates, Tokens,
           lm.HashReady, Pow2, lm.Config, EncArrays,
           SlowReady, SlowLog;
      ghost var total := lm.data + lm.input;
      while true
        invariant SlowReady() && SlowLog() && !finished && lm.data + lm.input == total && Supplied()
        decreases lm.lookahead + |lm.input|
      {
        var wait, end := SlowFill(flush);
        if wait {
          return NeedMore;
        }
        if end {
          break;
        }
        var stop := SlowEmit();
        if stop {
          return NeedMore;
        }
      }
      st := SlowEnd(flush);
    }

    // What deflate_rle and deflate_huff keep from one byte to the next.
    ghost predicate PlainReady()
      reads this, lm, lm.window, lm.prev, lm.head, enc, enc.w, enc.b, enc.lfc, enc.dfc, enc.bfc, asked, strm
      reads log`tokens
    {
      && Flushed() && Tokens(Here()) && |enc.tokens| + 1 < enc.lit_bufsize
      && lm.Text() && lm.Strings(lm.strstart - lm.insert) && lm.block_start <= lm.strstart && !match_available
    }

    method PlainFill(enough: nat, flush: Flush) returns (wait: bool, end: bool)
      requires PlainReady() && 1 <= enough <= MIN_LOOKAHEAD
      modifies lm, lm.window, lm.prev, lm.head
      ensures PlainReady() && lm.data + lm.input == old(lm.data + lm.input)
      ensures lm.lookahead + |lm.input| == old(lm.lookahead + |lm.input|) && BlockStart() == old(BlockStart())
      ensures Here() == old(Here()) && old(lm.data) <= lm.data
      ensures end ==> flush != NoFlush
      ensures end ==> lm.lookahead == 0 && lm.input == [] && lm.strstart < 0x10000
      ensures !end && !wait ==> lm.lookahead > 0 && lm.strstart < 2 * lm.WSize() <= 0x10000
      ensures !end && !wait && enough > MAX_MATCH ==> lm.strstart + MAX_MATCH < 2 * lm.WSize()
      ensures wait ==> flush == NoFlush
    {
      hide ReadsBack, Yields, enc.Valid, lm.Held, lm.Strings, IsBytes, Flushed, Separate, Tokens, lm.HashReady, Pow2,
           lm.Config, EncArrays;
      Bounds();
      wait, end := false, false;
      if lm.lookahead < enough {
        ghost var taken := Fill(Here());
        Bounds();
        if lm.lookahead < enough && flush == NoFlush {
          wait := true;
        } else if lm.lookahead == 0 {
          end := true;
        }
      }
    }

    // Look for a run at the current string.
    method RleFind() returns (ghost v: Visit)
      requires PlainReady() && lm.lookahead > 0 && lm.strstart + MAX_MATCH < 2 * lm.WSize()
      modifies `match_length
      ensures match_length <= MAX_MATCH && match_length <= lm.lookahead && PlainReady()
      ensures match_length >= MIN_MATCH ==> lm.strstart > 0 && Repeats(lm.data, Here(), match_length, 1)
      ensures RleChosen(lm.data, v, if match_length >= MIN_MATCH then Match(Here(), match_length, 1) else Byte(Here()))
    {
      hide ReadsBack, Yields, enc.Valid, lm.Held, lm.Strings, IsBytes, Flushed, Separate, Tokens, lm.HashReady, Pow2,
           lm.Config, EncArrays, Repeats, Run;
      Apart();
      lm.HeldBounds();
      SightText(0);
      v := Sight(0);
      match_length := 0;
      if lm.lookahead >= MIN_MATCH && lm.strstart > 0 {
        match_length := lm.RunLength();
      }
    }

    // One step of deflate_rle: a run of at least three, or a literal.
    method RleStep() returns (bflush: bool)
      requires PlainReady() && RleLog() && lm.lookahead > 0 && lm.strstart + MAX_MATCH < 2 * lm.WSize()
      modifies `match_length, lm, enc, enc.lfc, enc.dfc, log
      ensures RleLog() && Flushed() && Tokens(Here()) && |enc.tokens| < enc.lit_bufsize
      ensures (!bflush ==> |enc.tokens| + 1 < enc.lit_bufsize)
      ensures bflush ==> |enc.tokens| == enc.lit_bufsize - 1
      ensures lm.Text() && lm.Strings(lm.strstart - lm.insert) && lm.block_start == old(lm.block_start)
      ensures old(lm.strstart) < lm.strstart <= old(lm.strstart) + MAX_MATCH && lm.lookahead < old(lm.lookahead)
      ensures lm.data == old(lm.data) && lm.input == old(lm.input)
    {
      hide ReadsBack, Yields, enc.Valid, lm.Held, lm.Strings, IsBytes, Flushed, Separate, Tokens, lm.HashReady, Pow2,
           lm.Config, EncArrays, Repeats, RleCourse, RleChosen;
      Apart();
      lm.HeldBounds();
      ghost var n, visits, choices, tokens := Here(), log.visits, log.choices, log.tokens;
      ghost var v := RleFind();
      ghost var c, t := Byte(n), Literal(lm.data[n]);
      if match_length >= MIN_MATCH {
        c, t := Match(n, match_length, 1), Copy(match_length, 1);
        bflush := RleRun();
      } else {
        bflush := TallyLiteral(lm.strstart);
        lm.SkipRun(1);
      }
      RlePush(lm.data, visits, choices, tokens, n, v, c, t);
      log.visits, log.choices := visits + [v], choices + [c];
    }

    // A run is a match at distance one.
    method RleRun() returns (bflush: bool)
      requires PlainReady() && MIN_MATCH <= match_length <= MAX_MATCH && match_length <= lm.lookahead && lm.strstart > 0
      requires Repeats(lm.data, Here(), match_length, 1) && lm.strstart + MAX_MATCH < 2 * lm.WSize()
      modifies `match_length, lm, enc, enc.lfc, enc.dfc, log`tokens
      ensures Flushed() && Tokens(Here()) && |enc.tokens| < enc.lit_bufsize
      ensures log.tokens == old(log.tokens) + [Copy(old(match_length), 1)]
      ensures (!bflush ==> |enc.tokens| + 1 < enc.lit_bufsize)
      ensures bflush ==> |enc.tokens| == enc.lit_bufsize - 1
      ensures lm.Text() && lm.Strings(lm.strstart - lm.insert) && lm.block_start == old(lm.block_start)
      ensures lm.strstart == old(lm.strstart + match_length) && lm.lookahead == old(lm.lookahead - match_length)
      ensures lm.data == old(lm.data) && lm.input == old(lm.input) && lm.base == old(lm.base)
    {
      hide ReadsBack, Yields, enc.Valid, lm.Held, lm.Strings, IsBytes, Flushed, Separate, Tokens, lm.HashReady, Pow2,
           lm.Config, EncArrays, Repeats;
      Apart();
      NearBounds();
      bflush := TallyMatch(Here(), match_length, 1);
      lm.SkipRun(match_length);
      match_length := 0;
    }

    method RleEmit() returns (stop: bool)
      requires PlainReady() && RleLog() && lm.lookahead > 0 && lm.strstart + MAX_MATCH < 2 * lm.WSize() <= 0x10000
      modifies `match_length, lm, enc, enc.w, enc.b, EncArrays(), strm, log
      ensures PlainReady() && RleLog()
      ensures lm.data == old(lm.data) && lm.input == old(lm.input) && lm.lookahead < old(lm.lookahead)
      ensures (stop ==> strm.avail_out == 0) && Supplied()
    {
      hide ReadsBack, Yields, enc.Valid, lm.Held, lm.Strings, IsBytes, Flushed, Separate, Tokens, lm.HashReady, Pow2,
           lm.Config, EncArrays, RleCourse;
      Bounds();
      Members();
      var bflush := RleStep();
      stop := false;
      if bflush {
        FlushBlockOnly(false);
        stop := strm.avail_out == 0;
      }
    }

    // The input has been processed: write what remains.
    method PlainEnd(flush: Flush) returns (st: BlockState)
      requires PlainReady() && !finished && lm.lookahead == 0 && lm.input == []
      requires lm.block_start >= 0 ==> lm.strstart < lm.block_start + 0x10000
      requires asked.plain ==> flush == Finish
      modifies `finished, lm`block_start, lm`insert, enc, enc.w, enc.b, EncArrays(), strm
      ensures Achieved(st, lm.data + lm.input) && lm.data == old(lm.data) && lm.input == old(lm.input)
      ensures (flush == Finish ==> st != BlockDone) && (finished ==> flush == Finish)
      ensures !finished ==> PlainReady() && enc.tokens == [] && Here() == BlockStart()
      ensures (st == NeedMore && flush != NoFlush ==> strm.avail_out == 0) && Supplied()
    {
      hide ReadsBack, Yields, enc.Valid, lm.Held, lm.Strings, IsBytes, Flushed, Separate, Inflates, Tokens,
           lm.HashReady, Pow2, lm.Config, EncArrays;
      Bounds();
      lm.NoInsert();
      st := FinishCall(flush);
      if !finished {
        EmptyBlock();
      }
    }

    lemma EmptyBlock()
      requires Tokens(Here()) && enc.tokens == []
      ensures Here() == BlockStart()
    {
      hide Yields;
      NoTokens(lm.data[..BlockStart()], enc.tokens, lm.data, Here());
    }

    /**
      deflate_rle: only matches of distance one.
     */
    method DeflateRle(flush: Flush) returns (st: BlockState)
      requires PlainReady() && RleLog() && !finished
      requires asked.plain ==> flush in {NoFlush, Finish}
      modifies this, lm, lm.window, lm.prev, lm.head, enc, enc.w, enc.b, EncArrays(), strm, log
      ensures Achieved(st, old(lm.data + lm.input))
      ensures asked.plain ==> st != BlockDone
      ensures (flush == Finish ==> st != BlockDone) && (finished ==> flush == Finish)
      ensures RleLog() && (!finished ==> PlainReady())
      ensures (st == NeedMore && flush != NoFlush ==> strm.avail_out == 0) && Supplied()
    {
      hide ReadsBack, Yields, enc.Valid, lm.Held, lm.Strings, IsBytes, Flushed, Separate, Inflates, Tokens,
           lm.HashReady, Pow2, lm.Config, EncArrays,
           PlainReady, RleCourse;
      ghost var total := lm.data + lm.input;
      while true
        invariant PlainReady() && RleLog() && !finished && lm.data + lm.input == total && Supplied()
        decreases lm.lookahead + |lm.input|
      {
        ghost var data := lm.data;
        var wait, end := PlainFill(MAX_MATCH + 1, flush);
        RleLogMore(data);
        if wait {
          return NeedMore;
        }
        if end {
          break;
        }
        var stop := RleEmit();
        if stop {
          return NeedMore;
        }
      }
      st := PlainEnd(flush);
    }

    lemma RleLogMore(data: seq<nat>)
      requires RleCourse(data, log.visits, log.choices, log.tokens, Here()) && data <= lm.data
      ensures RleLog()
    {
      hide RleCourse;
      assert data + lm.data[|data|..] == lm.data;
      RleMore(data, log.visits, log.choices, log.tokens, Here(), lm.data[|data|..]);
    }

    // Every token of deflate_huff is one byte of input.
    ghost predicate HuffReady()
      reads this, lm, lm.window, lm.prev, lm.head, enc, enc.w, enc.b, enc.lfc, enc.dfc, enc.bfc, asked, strm
      reads log`tokens
    {
      PlainReady() && Here() == BlockStart() + |enc.tokens|
    }

    method HuffEmit() returns (stop: bool)
      requires HuffReady() && HuffLog() && lm.lookahead > 0
      modifies `match_length, lm, enc, enc.w, enc.b, EncArrays(), strm, log`tokens
      ensures HuffReady() && HuffLog()
      ensures lm.data == old(lm.data) && lm.input == old(lm.input) && lm.lookahead < old(lm.lookahead)
      ensures (stop ==> strm.avail_out == 0) && Supplied()
    {
      hide ReadsBack, Yields, enc.Valid, lm.Held, lm.Strings, IsBytes, Flushed, Separate, Tokens, lm.HashReady, Pow2,
           lm.Config, EncArrays, HuffCourse;
      Bounds();
      Members();
      Apart();
      match_length := 0;
      ghost var n, tokens := Here(), log.tokens;
      var bflush := TallyLiteral(lm.strstart);
      lm.SkipRun(1);
      HuffPush(lm.data, tokens, n);
      stop := false;
      if bflush {
        FlushBlockOnly(false);
        stop := strm.avail_out == 0;
      }
    }

    /**
      deflate_huff: no matches at all.
     */
    method DeflateHuff(flush: Flush) returns (st: BlockState)
      requires HuffReady() && HuffLog() && !finished
      requires asked.plain ==> flush in {NoFlush, Finish}
      modifies this, lm, lm.window, lm.prev, lm.head, enc, enc.w, enc.b, EncArrays(), strm, log`tokens
      ensures Achieved(st, old(lm.data + lm.input))
      ensures asked.plain ==> st != BlockDone
      ensures (flush == Finish ==> st != BlockDone) && (finished ==> flush == Finish)
      ensures HuffLog() && (!finished ==> HuffReady())
      ensures (st == NeedMore && flush != NoFlush ==> strm.avail_out == 0) && Supplied()
    {
      hide ReadsBack, Yields, enc.Valid, lm.Held, lm.Strings, IsBytes, Flushed, Separate, Inflates, Tokens,
           lm.HashReady, Pow2, lm.Config, EncArrays,
           PlainReady, HuffCourse;
      ghost var total := lm.data + lm.input;
      while true
        invariant HuffReady() && HuffLog() && !finished && lm.data + lm.input == total && Supplied()
        decreases lm.lookahead + |lm.input|
      {
        ghost var data := lm.data;
        var wait, end := PlainFill(1, flush);
        HuffMore(data, lm.data, log.tokens, Here());
        if wait {
          return NeedMore;
        }
        if end {
          break;
        }
        var stop := HuffEmit();
        if stop {
          return NeedMore;
        }
      }
      st := PlainEnd(flush);
    }

    // The length field has 16 bits, and the block must fit the pending buffer with its header.
    function MaxBlockSize(): nat
      requires enc.lit_bufsize >= 128
    {
      if 0xffff > enc.lit_bufsize * 4 - 5 then enc.lit_bufsize * 4 - 5 else 0xffff
    }

    // What deflate_stored keeps: the current block is still in the window.
    ghost predicate StoredReady()
      reads this, lm, lm.window, lm.prev, lm.head, enc, enc.w, enc.b, enc.lfc, enc.dfc, enc.bfc, asked, strm
    {
      && Flushed() && enc.tokens == [] && enc.level == 0 && !match_available
      && lm.Text() && lm.Strings(lm.strstart - lm.insert) && lm.insert == 0
      && 0 <= lm.block_start <= lm.strstart
      && lm.strstart - lm.block_start < lm.MaxDist() && lm.strstart - lm.block_start < MaxBlockSize()
    }

    // Take in more input when there is at most one byte left.
    method StoredFill(flush: Flush) returns (wait: bool, end: bool)
      requires StoredReady()
      modifies lm, lm.window, lm.prev, lm.head
      ensures StoredReady() && lm.data + lm.input == old(lm.data + lm.input)
      ensures lm.lookahead + |lm.input| == old(lm.lookahead + |lm.input|)
      ensures end ==> flush != NoFlush
      ensures end ==> lm.lookahead == 0 && lm.input == []
      ensures !end && !wait ==> lm.lookahead > 0
      ensures wait ==> flush == NoFlush
    {
      hide ReadsBack, Yields, enc.Valid, lm.Held, lm.Strings, IsBytes, Flushed, Separate, lm.HashReady, Pow2,
           lm.Config, EncArrays;
      Bounds();
      wait, end := false, false;
      if lm.lookahead <= 1 {
        YieldsNothing(lm.data, BlockStart());
        ghost var taken := Fill(BlockStart());
        Bounds();
        if lm.lookahead == 0 && flush == NoFlush {
          wait := true;
        } else if lm.lookahead == 0 {
          end := true;
        }
      }
    }

    // Store what is at hand, in blocks of limited size.  Blocks are as large as their length
    // field, the pending buffer or the window allows, unless a flush ends them.
    method StoredEmit() returns (stop: bool)
      requires StoredReady() && lm.lookahead > 0
      modifies lm, enc, enc.w, enc.b, EncArrays(), strm
      ensures StoredReady() && lm.data == old(lm.data) && lm.input == old(lm.input) && lm.lookahead < old(lm.lookahead)
      ensures (stop ==> strm.avail_out == 0) && Supplied()
      ensures BlockStart() == old(BlockStart()) || BlockStart() >= old(BlockStart()) + lm.MaxDist()
              || BlockStart() >= old(BlockStart()) + 0xffff
              || BlockStart() >= old(BlockStart()) + 4 * enc.lit_bufsize - 5
    {
      hide ReadsBack, Yields, enc.Valid, lm.Held, lm.Strings, IsBytes, Flushed, Separate, Tokens, lm.HashReady, Pow2,
           lm.Config, EncArrays;
      Bounds();
      Members();
      lm.HeldBounds();
      ghost var from := lm.strstart;
      lm.SkipRun(lm.lookahead);
      var maxStart := lm.block_start + MaxBlockSize();
      if lm.strstart == 0 || lm.strstart >= maxStart {
        lm.StringsMono(from, maxStart);
        lm.GiveBack(maxStart);
        FlushBlockOnly(false);
        stop := strm.avail_out == 0;
        if stop {
          return;
        }
      }
      // write the block before the next slide could move its start out of the window
      stop := false;
      if lm.strstart - lm.block_start >= lm.prev.Length - MIN_LOOKAHEAD {
        FlushBlockOnly(false);
        stop := strm.avail_out == 0;
      }
    }

    method StoredEnd(flush: Flush) returns (st: BlockState)
      requires StoredReady() && !finished && lm.lookahead == 0 && lm.input == []
      requires asked.plain ==> flush == Finish
      modifies `finished, lm`block_start, lm`insert, enc, enc.w, enc.b, EncArrays(), strm
      ensures Achieved(st, lm.data + lm.input) && lm.data == old(lm.data) && lm.input == old(lm.input)
      ensures (flush == Finish ==> st != BlockDone) && (finished ==> flush == Finish)
      ensures !finished ==> StoredReady()
      ensures (st == NeedMore && flush != NoFlush ==> strm.avail_out == 0) && Supplied()
    {
      hide ReadsBack, Yields, enc.Valid, lm.Held, lm.Strings, IsBytes, Flushed, Separate, Inflates, Tokens,
           lm.HashReady, Pow2, lm.Config, EncArrays;
      Bounds();
      lm.NoInsert();
      if flush == Finish {
        FlushBlockOnly(true);
        finished := true;
        st := if strm.avail_out == 0 then FinishStarted else FinishDone;
        return;
      }
      if lm.strstart > lm.block_start {
        FlushBlockOnly(false);
        if strm.avail_out == 0 {
          return NeedMore;
        }
      }
      st := BlockDone;
    }

    /**
      deflate_stored: copy without compression.
     */
    method DeflateStored(flush: Flush) returns (st: BlockState)
      requires StoredReady() && !finished
      requires asked.plain ==> flush in {NoFlush, Finish}
      modifies this, lm, lm.window, lm.prev, lm.head, enc, enc.w, enc.b, EncArrays(), strm
      ensures Achieved(st, old(lm.data + lm.input))
      ensures asked.plain ==> st != BlockDone
      ensures (flush == Finish ==> st != BlockDone) && (finished ==> flush == Finish)
      ensures !finished ==> StoredReady()
      ensures (st == NeedMore && flush != NoFlush ==> strm.avail_out == 0) && Supplied()
    {
      hide ReadsBack, Yields, enc.Valid, lm.Held, lm.Strings, IsBytes, Flushed, Separate, Inflates, Tokens,
           lm.HashReady, Pow2, lm.Config, EncArrays,
           StoredReady;
      ghost var total := lm.data + lm.input;
      while true
        invariant StoredReady() && !finished && lm.data + lm.input == total && Supplied()
        decreases lm.lookahead + |lm.input|
      {
        var wait, end := StoredFill(flush);
        if wait {
          return NeedMore;
        }
        if end {
          break;
        }
        var stop := StoredEmit();
        if stop {
          return NeedMore;
        }
      }
      st := StoredEnd(flush);
    }

    /**
      Between two calls of deflate(): the invariant of the compression function that level
      and strategy select, or a complete stream.
     */
    ghost predicate Invariant()
      reads this, lm, lm.window, lm.prev, lm.head, enc, enc.w, enc.b, enc.lfc, enc.dfc, enc.bfc, asked, strm, log
    {
      && Logged()
      && if finished then lm.input == [] && Complete()
         else if enc.strategy == Z_HUFFMAN_ONLY then HuffReady()
         else if enc.strategy == Z_RLE then PlainReady()
         else if enc.level == 0 then StoredReady()
         else if enc.level <= 3 then FastReady()
         else SlowReady()
    }

    // The compression function for level and strategy.
    method Compress(flush: Flush) returns (st: BlockState)
      requires Invariant() && !finished
      requires asked.plain ==> flush in {NoFlush, Finish}
      modifies this, lm, lm.window, lm.prev, lm.head, enc, enc.w, enc.b, EncArrays(), strm, log
      ensures Achieved(st, old(lm.data + lm.input)) && Invariant()
      ensures asked.plain ==> st != BlockDone
      ensures (flush == Finish ==> st != BlockDone) && (finished ==> flush == Finish)
      ensures (st == NeedMore && flush != NoFlush ==> strm.avail_out == 0) && Supplied()
    {
      hide HuffReady, PlainReady, StoredReady, FastReady, SlowReady, Flushed, Inflates, EncArrays;
      if enc.strategy == Z_HUFFMAN_ONLY {
        st := DeflateHuff(flush);
      } else if enc.strategy == Z_RLE {
        st := DeflateRle(flush);
      } else if enc.level == 0 {
        st := DeflateStored(flush);
      } else if enc.level <= 3 {
        st := DeflateFast(flush);
      } else {
        st := DeflateSlow(flush);
      }
    }

    // All input has been processed and written, and nothing is pending.
    ghost predicate Idle()
      reads this, lm, lm.window, lm.prev, lm.head, enc, enc.w, enc.b, enc.lfc, enc.dfc, enc.bfc, asked, strm
    {
      && Flushed() && enc.tokens == [] && lm.Text() && lm.Strings(lm.strstart - lm.insert) && lm.HashReady()
      && lm.lookahead == 0 && lm.block_start == lm.strstart && !match_available
      && (enc.strategy != Z_HUFFMAN_ONLY && enc.strategy != Z_RLE ==>
            (enc.level == 0 ==> lm.insert == 0) && (enc.level > 0 ==> match_length < MIN_MATCH)
            && (1 <= enc.level <= 3 ==> prev_length == MIN_MATCH - 1)
            && (enc.level > 3 ==> match_length == MIN_MATCH - 1))
    }

    lemma IdleNow()
      requires Invariant() && !finished && Flushed() && enc.tokens == [] && BlockStart() == |lm.data|
      ensures Idle()
    {
      hide ReadsBack, Yields, enc.Valid, lm.Held, lm.Strings, IsBytes, Flushed, Separate, lm.PrimedAt, Pow2,
           lm.Config, EncArrays, Repeats, Logged;
      Bounds();
      if enc.strategy != Z_HUFFMAN_ONLY && enc.strategy != Z_RLE && enc.level > 3 {
        NoTokens(lm.data[..BlockStart()], enc.tokens, lm.data, Here() - Pending());
      }
    }

    lemma IdleInvariant()
      requires Idle() && !finished && Logged()
      ensures Invariant()
    {
      hide ReadsBack, Yields, enc.Valid, lm.Held, lm.Strings, IsBytes, Flushed, Separate, lm.PrimedAt, Pow2,
           lm.Config, EncArrays, Repeats, Logged;
      FlushedParts();
      Bounds();
      YieldsNothing(lm.data, BlockStart());
    }

    // An empty block, on a byte boundary for all but a partial flush.
    method WriteMark(flush: Flush)
      requires Flushed() && !asked.plain
      modifies enc.w
      ensures Flushed() && enc.w.Stream() == old(enc.w.Stream()) + Marker(flush, old(|enc.w.Stream()|))
      ensures flush in {NoFlush, SyncFlush, FullFlush} ==> enc.w.bi_valid == 0
    {
      hide ReadsBack, enc.Valid, IsBytes, Flushed, Separate, Pow2, EncArrays, BlockBits, BlockOk, BlockOutput,
           BytesBits,
           enc.w.Stream, enc.w.Valid;
      FlushedParts();
      ghost var out, before := lm.data[..BlockStart()], enc.w.Stream();
      EncoderReady();
      if flush == PartialFlush {
        enc.Align(out);
        EmptyFixed(out, |before|);
        ReadsBackBlock(before, out, Fixed([]), false, lm.MaxDist());
        FlushedIs();
      } else if flush != BlockFlush {
        StoredFacts([], out, |before|, false);
        enc.StoredBlock([], false);
        EmptyStored(out, |before|);
        assert out + [] == out;
        ReadsBackBlock(before, out, Stored([]), false, lm.MaxDist());
        FlushedIs();
      }
    }

    // flush_pending between blocks.
    method Deliver()
      requires Flushed()
      modifies enc.w, strm`given, strm`avail_out
      ensures Flushed() && enc.w.Stream() == old(enc.w.Stream())
      ensures Supplied() && (strm.avail_out > 0 ==> strm.given == enc.w.pending)
      ensures enc.w.pending == old(enc.w.pending) && enc.w.bi_valid == old(enc.w.bi_valid)
    {
      hide ReadsBack, enc.Valid, Flushed, Separate, BytesBits, enc.w.Stream, enc.w.Valid, Given, IsBytes, Lean;
      FlushedParts();
      EncoderReady();
      GivenParts();
      FlushPending();
      FlushedIs();
    }

    // The marker of a flush, after the last block.
    method Mark(flush: Flush)
      requires Idle() && Logged() && !finished && flush != Finish
      requires !asked.plain
      modifies lm, lm.head, enc.w, strm
      ensures Idle() && Logged() && !finished && lm.data == old(lm.data) && lm.input == old(lm.input)
      ensures Supplied() && (strm.avail_out > 0 ==> strm.given == enc.w.pending)
      ensures enc.w.Stream() == old(enc.w.Stream()) + Marker(flush, old(|enc.w.Stream()|))
      ensures flush == FullFlush ==> lm.strstart == 0 && lm.ins == {}
      ensures flush in {NoFlush, SyncFlush, FullFlush} ==> enc.w.bi_valid == 0
    {
      hide ReadsBack, Yields, enc.Valid, lm.Held, lm.Strings, IsBytes, Flushed, Separate, lm.HashReady, Pow2,
           lm.Config, EncArrays,
           BytesBits, enc.w.Stream, enc.w.Valid, Given, Lean, FastCourse, SlowCourse, RleCourse, HuffCourse, LazyRun;
      FlushedParts();
      Apart();
      WriteMark(flush);
      if flush == FullFlush {
        FlushedParts();
        lm.Restart();
        FlushedIs();
      }
      Deliver();
    }

    lemma EncoderReady()
      requires enc.Valid()
      ensures enc.w.Valid() && enc.tables.Ok()
    {
    }

    lemma InvariantFlushed()
      requires Invariant()
      ensures !finished ==> Flushed()
      ensures finished ==> lm.input == [] && Complete()
    {
      hide Flushed;
    }

    lemma IdleAll()
      requires Idle()
      ensures Flushed() && ReadsBack(enc.w.Stream(), lm.data, false, lm.MaxDist())
    {
      hide Flushed, ReadsBack, lm.Held, lm.Strings;
      Bounds();
      FlushedParts();
      assert lm.data[..|lm.data|] == lm.data;
    }

    // More input is provided.
    method AddInput(next: seq<nat>)
      requires Invariant() && IsBytes(next) && (finished ==> next == [])
      modifies lm`input
      ensures Invariant() && lm.input == old(lm.input) + next
    {
      hide Logged, ReadsBack, Yields, enc.Valid, lm.Held, lm.Strings, Flushed, lm.HashReady, Pow2, EncArrays, MatchAt,
           Tokens, Inflates;
      lm.input := lm.input + next;
    }

    // Any other flush mode than these two may write a marker or a short block.
    ghost method Ask(flush: Flush)
      requires Invariant()
      modifies asked
      ensures Invariant() && asked.plain == (old(asked.plain) && flush in {NoFlush, Finish})
    {
      hide Logged, ReadsBack, Yields, enc.Valid, lm.Held, lm.Strings, lm.HashReady, Pow2, EncArrays, MatchAt, Tokens,
           Inflates, Separate, Lean;
      asked.plain := asked.plain && flush in {NoFlush, Finish};
    }

    // Deliver pending output between calls.
    method FlushOut()
      requires Invariant()
      modifies enc.w, strm`given, strm`avail_out
      ensures Invariant() && Supplied() && (strm.avail_out > 0 ==> strm.given == enc.w.pending)
      ensures enc.w.pending == old(enc.w.pending) && |strm.given| <= |enc.w.pending|
    {
      hide Logged, ReadsBack, Yields, enc.Valid, lm.Held, lm.Strings, lm.HashReady, Pow2, EncArrays, MatchAt, Tokens,
           Inflates, Separate, Lean,
           enc.w.Stream, enc.w.Valid, Flushed, IsBytes, Given, BytesBits;
      InvariantFlushed();
      if finished {
        CompleteParts();
        FlushPending();
        CompleteIs();
      } else {
        Deliver();
        FlushedParts();
        EncoderReady();
      }
      GivenPending();
    }

    lemma GivenParts()
      requires Given()
      ensures IsBytes(strm.given) && BytesBits(strm.given) <= enc.w.Stream() && enc.w.bi_valid <= 7
    {
    }

    lemma CompleteParts()
      requires Complete()
      ensures Inflates(enc.w.Stream(), lm.data, lm.MaxDist()) && enc.w.Valid() && enc.w.bi_valid == 0 && Given()
      ensures IsBytes(strm.given) && BytesBits(strm.given) <= enc.w.Stream()
      ensures asked.plain ==> |enc.w.Stream()| <= 8 * Bound(|lm.data|)
    {
    }

    lemma CompleteIs()
      requires Inflates(enc.w.Stream(), lm.data, lm.MaxDist()) && enc.w.Valid() && enc.w.bi_valid == 0 && Given()
      requires asked.plain ==> |enc.w.Stream()| <= 8 * Bound(|lm.data|)
      ensures Complete()
    {
    }

    // Delivered is the beginning of pending; it is all of it if it is as long.
    lemma GivenPending()
      requires Given() && enc.w.Valid()
      ensures |strm.given| <= |enc.w.pending| && strm.given == enc.w.pending[..|strm.given|]
      ensures 8 * |enc.w.pending| <= |enc.w.Stream()|
      ensures |strm.given| == |enc.w.pending| ==> strm.given == enc.w.pending
      ensures enc.w.bi_valid == 0 ==> enc.w.Stream() == BytesBits(enc.w.pending)
    {
      hide BytesBits, ToBits;
      GivenIs(strm.given, enc.w.pending, enc.w.bi_buf, enc.w.bi_valid);
    }

    // Everything that has been asked for has been done: the blocks stand for all input and
    // have been delivered, up to less than a byte.
    ghost predicate UpToDate(flush: Flush)
      reads lm`data, lm`input, lm`base, lm`block_start, enc, enc.w, enc.b, enc.lfc, enc.dfc, enc.bfc, asked, strm
    {
      && Flushed() && ReadsBack(enc.w.Stream(), lm.data + lm.input, false, lm.MaxDist())
      && (strm.avail_out > 0 ==> strm.given == enc.w.pending)
      && (flush in {SyncFlush, FullFlush} ==> enc.w.Stream() == BytesBits(enc.w.pending))
    }

    // Compress, and mark a flush.
    method Work(flush: Flush) returns (st: BlockState)
      requires Invariant() && !finished
      requires asked.plain ==> flush in {NoFlush, Finish}
      modifies this, lm, lm.window, lm.prev, lm.head, enc, enc.w, enc.b, EncArrays(), strm, log
      ensures Invariant() && lm.data + lm.input == old(lm.data + lm.input) && Supplied()
      ensures (flush == Finish ==> st != BlockDone) && (finished ==> flush == Finish)
      ensures (st == FinishStarted || st == FinishDone) <==> finished
      ensures st == FinishDone ==> strm.avail_out > 0 && strm.given == enc.w.pending
      ensures st == FinishStarted || (st == NeedMore && flush != NoFlush) ==> strm.avail_out == 0
      ensures st == BlockDone ==> UpToDate(flush)
    {
      hide HuffReady, PlainReady, StoredReady, FastReady, SlowReady, Flushed, Inflates, EncArrays, Idle, ReadsBack,
           Given, BytesBits,
           enc.w.Stream, enc.w.Valid, enc.Valid;
      st := Compress(flush);
      if st == BlockDone {
        IdleNow();
        Mark(flush);
        IdleAll();
        IdleInvariant();
        FlushedParts();
        EncoderReady();
        GivenPending();
        assert lm.data + lm.input == lm.data;
      }
    }

    // More output space, whatever there was before.
    method MakeRoom(avail: nat)
      requires Invariant()
      modifies strm`avail_out
      ensures Invariant() && strm.avail_out == avail
    {
      hide Logged, ReadsBack, Yields, enc.Valid, lm.Held, lm.Strings, lm.HashReady, Pow2, EncArrays, MatchAt, Tokens,
           Inflates, Separate, Lean,
           Given;
      strm.avail_out := avail;
    }

    method Remember(flush: int)
      requires Invariant()
      modifies strm`last_flush
      ensures Invariant() && strm.last_flush == flush
      ensures old(UpToDate(PartialFlush)) ==> UpToDate(PartialFlush)
      ensures old(UpToDate(SyncFlush)) ==> UpToDate(SyncFlush)
    {
      hide Logged, ReadsBack, Yields, enc.Valid, lm.Held, lm.Strings, lm.HashReady, Pow2, EncArrays, MatchAt, Tokens,
           Inflates, Separate, Lean,
           Given;
      strm.last_flush := flush;
    }

    // Work on the input, when nothing is pending and there is space.
    method Process(flush: Flush) returns (ret: int)
      requires Invariant() && (finished ==> flush == Finish) && (asked.plain ==> flush in {NoFlush, Finish})
      requires strm.avail_out > 0 && |enc.w.pending| <= |strm.given|
      modifies this, lm, lm.window, lm.prev, lm.head, enc, enc.w, enc.b, EncArrays(), strm, log
      ensures Invariant() && lm.data + lm.input == old(lm.data + lm.input)
      ensures old(strm.given) <= strm.given && |strm.given| + strm.avail_out == old(|strm.given| + strm.avail_out)
      ensures ret in {Z_OK, Z_STREAM_END}
      ensures ret == Z_STREAM_END ==> flush == Finish && finished && strm.avail_out > 0 && strm.given == enc.w.pending
      ensures ret == Z_OK ==> strm.avail_out == 0 || flush == NoFlush || UpToDate(flush) || old(finished)
      ensures ret == Z_OK && flush == Finish ==> strm.avail_out == 0
    {
      hide HuffReady, PlainReady, StoredReady, FastReady, SlowReady, Flushed, Inflates, EncArrays, Idle, ReadsBack,
           Given, BytesBits,
           enc.w.Stream, enc.w.Valid, enc.Valid, Invariant;
      if !finished && (lm.input != [] || lm.lookahead != 0 || flush != NoFlush) {
        var st := Work(flush);
        if st == NeedMore || st == FinishStarted || (st == BlockDone && strm.avail_out == 0) {
          if strm.avail_out == 0 {
            Remember(-1);
          }
          return Z_OK;
        }
      }
      if flush != Finish {
        return Z_OK;
      }
      InvariantFlushed();
      AllGiven();
      return Z_STREAM_END;
    }

    // The course of a call.
    method Call(next: seq<nat>, flush: Flush, avail: nat) returns (ret: int)
      requires Invariant() && IsBytes(next)
      modifies this, asked, lm, lm.window, lm.prev, lm.head, enc, enc.w, enc.b, EncArrays(), strm, log
      ensures Invariant()
      ensures lm.data + lm.input == old(lm.data + lm.input) + if old(finished) then [] else next
      ensures asked.plain == (old(asked.plain) && flush in {NoFlush, Finish})
      ensures old(strm.given) <= strm.given && |strm.given| + strm.avail_out == old(|strm.given|) + avail
      ensures ret in {Z_OK, Z_STREAM_END, Z_STREAM_ERROR, Z_BUF_ERROR}
      ensures ret == Z_STREAM_ERROR <==> old(finished) && flush != Finish
      ensures ret != Z_STREAM_ERROR ==>
        (ret == Z_BUF_ERROR <==>
         (avail == 0 || (old(finished) && next != [] && old(|enc.w.pending| - |strm.given|) < avail)
          || (flush != Finish && old(lm.input) + next == [] && old(|enc.w.pending| <= |strm.given|)
              && FlushRank(flush) <= CodeRank(old(strm.last_flush)))))
      ensures ret == Z_STREAM_END ==> flush == Finish && finished && strm.avail_out > 0 && strm.given == enc.w.pending
      ensures ret == Z_OK ==> strm.avail_out == 0 || flush == NoFlush || UpToDate(flush)
      ensures ret == Z_OK && flush == Finish ==> strm.avail_out == 0
    {
      hide HuffReady, PlainReady, StoredReady, FastReady, SlowReady, Flushed, Inflates, EncArrays, Idle, ReadsBack,
           Given, BytesBits,
           enc.w.Stream, enc.w.Valid, enc.Valid, Invariant;
      ghost var done := finished;
      MakeRoom(avail);
      Ask(flush);
      if finished && flush != Finish {
        return Z_STREAM_ERROR;
      }
      if !finished {
        AddInput(next);
        SameTotal(lm.data, old(lm.input), next);
      }
      if avail == 0 {
        return Z_BUF_ERROR;
      }
      var oldFlush := strm.last_flush;
      Remember(FlushCode(flush));

      // what is pending comes first
      if |enc.w.pending| > |strm.given| {
        FlushOut();
        if strm.avail_out == 0 {
          Remember(-1);
          return Z_OK;
        }
      } else if lm.input == [] && (finished ==> next == []) && FlushRank(flush) <= CodeRank(oldFlush)
                && flush != Finish {
        return Z_BUF_ERROR;
      }
      if finished && next != [] {
        return Z_BUF_ERROR;
      }
      ret := Process(flush);
    }

    lemma AllGiven()
      requires Complete() && |enc.w.pending| <= |strm.given|
      ensures strm.given == enc.w.pending
    {
      hide Inflates;
      GivenPending();
    }

    // What a finished stream is.
    lemma Outcome()
      requires Invariant()
      ensures !finished ==> Flushed()
      ensures finished ==> lm.input == [] && enc.w.Stream() == BytesBits(enc.w.pending)
      ensures finished ==> Inflates(BytesBits(enc.w.pending), lm.data + lm.input, lm.MaxDist())
      ensures finished && asked.plain ==> |enc.w.pending| <= Bound(|lm.data + lm.input|)
    {
      hide Inflates, Flushed, Invariant, BytesBits, ToBits, Given, Bound;
      InvariantFlushed();
      if finished {
        CompleteParts();
        GivenPending();
        assert lm.data + lm.input == lm.data;
      }
    }

    // With as much space as the bound the stream has been finished, or the space is not
    // used up; and it has been delivered.
    lemma RoomForAll()
      requires Invariant() && asked.plain && |strm.given| + strm.avail_out >= Bound(|lm.data + lm.input|)
      requires finished || strm.avail_out == 0
      ensures finished && (strm.avail_out == 0 ==> strm.given == enc.w.pending)
    {
      hide Inflates, Invariant, BytesBits, ToBits, Bound, ReadsBack, enc.Valid, Given, Separate;
      Outcome();
      if finished {
        InvariantFlushed();
        CompleteParts();
        GivenPending();
      } else {
        FlushedParts();
        EncoderReady();
        GivenPending();
        LeanBelow(|enc.w.Stream()|, BlockStart(), |lm.data + lm.input|);
      }
    }

    /**
      deflate(), for a raw stream, with more input and a new output buffer.

      Whatever the calls, the bits written so far inflate to the input up to the current
      block, and once the stream is finished, to all of the input; what has been delivered is
      the beginning of that stream.  Z_STREAM_END means that all of it has been delivered,
      and Z_OK leaves no space unless everything that was asked for has been done.

      If only Z_NO_FLUSH and Z_FINISH are used, no more space is ever needed than the bound.
      One byte more makes sure that the end is reported: without it Z_OK is returned for a
      stream that uses up all of the space.
     */
    method Deflate(next: seq<nat>, flush: Flush, avail: nat) returns (ret: int)
      requires Invariant() && IsBytes(next)
      modifies this, asked, lm, lm.window, lm.prev, lm.head, enc, enc.w, enc.b, EncArrays(), strm, log
      ensures Invariant() && (!finished ==> Flushed())
      ensures lm.data + lm.input == old(lm.data + lm.input) + if old(finished) then [] else next
      ensures asked.plain == (old(asked.plain) && flush in {NoFlush, Finish})
      ensures old(strm.given) <= strm.given && |strm.given| + strm.avail_out == old(|strm.given|) + avail
      ensures ret in {Z_OK, Z_STREAM_END, Z_STREAM_ERROR, Z_BUF_ERROR}
      ensures ret == Z_STREAM_ERROR <==> old(finished) && flush != Finish
      ensures ret != Z_STREAM_ERROR ==>
        (ret == Z_BUF_ERROR <==>
         (avail == 0 || (old(finished) && next != [] && old(|enc.w.pending| - |strm.given|) < avail)
          || (flush != Finish && old(lm.input) + next == [] && old(|enc.w.pending| <= |strm.given|)
              && FlushRank(flush) <= CodeRank(old(strm.last_flush)))))
      ensures ret == Z_STREAM_END ==> flush == Finish && finished && strm.avail_out > 0 && strm.given == enc.w.pending
      ensures ret == Z_OK ==> strm.avail_out == 0 || flush == NoFlush || UpToDate(flush)
      ensures ret == Z_OK && flush == Finish ==> strm.avail_out == 0
      ensures finished ==> enc.w.Stream() == BytesBits(enc.w.pending)
      ensures finished ==> Inflates(BytesBits(enc.w.pending), lm.data + lm.input, lm.MaxDist())
      ensures finished && asked.plain ==> |enc.w.pending| <= Bound(|lm.data + lm.input|)
      ensures flush == Finish && asked.plain && !(old(finished) && next != [])
              && old(|strm.given|) + avail >= Bound(|lm.data + lm.input|) ==>
        finished && strm.given == enc.w.pending && (ret == Z_STREAM_END <==> strm.avail_out > 0)
    {
      hide Inflates, Flushed, Invariant, BytesBits, ToBits, Given, Bound, UpToDate, EncArrays, enc.w.Stream;
      ghost var refused := finished && next != [];
      ret := Call(next, flush, avail);
      Outcome();
      if flush == Finish && asked.plain && !refused && |strm.given| + strm.avail_out >= Bound(|lm.data + lm.input|) {
        RoomForAll();
      }
    }
  }

  lemma RepeatsMore(data: seq<nat>, n: int, len: nat, dist: int, more: seq<nat>)
    requires 0 <= n && 0 <= dist && Repeats(data, n, len, dist)
    ensures Repeats(data + more, n, len, dist)
  {
  }

  lemma SameTotal(data: seq<nat>, taken: seq<nat>, input: seq<nat>)
    ensures data + taken + input == data + (taken + input)
  {
  }

  lemma NoTokens(out: seq<nat>, ts: seq<Token>, data: seq<nat>, n: nat)
    requires Yields(out, ts, data, n) && ts == []
    ensures out == data[..n] && |out| == n
  {
  }

  // The bytes of the current block, when they are still in the window.
  lemma BlockText(win: seq<nat>, data: seq<nat>, base: nat, end: nat, from: nat, to: nat)
    requires Holds(win, data, base, end) && from <= to <= end
    ensures to <= |win| && base + to <= |data| && IsBytes(win[from..to])
    ensures data[..base + to] == data[..base + from] + win[from..to]
  {
    var text := win[from..to];
    forall i | 0 <= i < |text|
      ensures text[i] == data[base + from + i] < 256
    {
      HoldsAt(win, data, base, end, from + i);
    }
    assert text == data[base + from..base + to];
  }

  lemma YieldsExpand(out: seq<nat>, ts: seq<Token>, data: seq<nat>, n: nat)
    requires n <= |data|
    ensures Yields(out, ts, data, n) ==> Blocks.Expand(out, ts) == Some(data[..n])
  {
  }

  lemma FlushedEnd(before: seq<bool>, bits: seq<bool>, full: seq<nat>, last: bool, d: int)
    requires ReadsBack(before + bits, full, last, d)
    ensures !last ==> before + Ending(bits, |before|, last) == before + bits
    ensures last ==> Inflates(before + Ending(bits, |before|, last), full, d)
  {
    hide ReadsBack, Inflates;
    if last {
      InflatesPadded(before + bits, full, d);
      Assoc(before, bits, Padding(|before| + |bits|));
    }
  }

  lemma BlockDecided(block: Block, ts: seq<Token>, level: nat, buf: Option<seq<nat>>, stored: nat, opt: nat,
                     stat: nat, strategy: nat)
    requires buf.Some? ==> |buf.value| == stored
    requires level > 0 ==> CostsExact(block, ts, opt, stat) && Chosen(block, buf.Some?, stored, opt, stat, strategy)
    requires level == 0 ==> block == if buf.Some? then Stored(buf.value) else Fixed(ts)
    requires block.Stored? ==> buf == Some(block.data)
    ensures Decided(block, ts, level, buf, stored, opt, stat, strategy)
  {
    hide CostsExact, Chosen;
  }

  // The length of the stream after a block.
  lemma FlushPrice(before: seq<bool>, block: Block, ts: seq<Token>, level: nat, buf: Option<seq<nat>>, stored: nat,
                   opt: nat, stat: nat,
                   strategy: nat, out: seq<nat>, full: seq<nat>, last: bool, plain: bool)
    requires BlockOk(block, out) && BlockOutput(block, out) == full && |full| == |out| + stored
    requires Decided(block, ts, level, buf, stored, opt, stat, strategy)
    requires level > 0 ==> Blocks.Expand(out, ts) == Some(full)
    requires plain ==> Lean(|before|, |out|) && (!last ==> stored >= 127)
    ensures var total := |before + Ending(BlockBits(block, out, |before|, last), |before|, last)|;
            plain ==> if last then total <= 8 * Bound(|full|) else Lean(total, |full|)
  {
    hide BlockOk, BlockOutput, BlockBits, Decided, Blocks.Expand, Priced, Lean, Padding, Bound;
    BlockPrice(block, ts, level, buf, stored, opt, stat, strategy, out, full, |before|, last);
    var bits := |BlockBits(block, out, |before|, last)|;
    if plain {
      if last {
        LeanEnd(|before|, |out|, bits, stored, level, block.Stored?);
      } else {
        LeanBlock(|before|, |out|, bits, stored, level, block.Stored?);
      }
    }
  }

  lemma NearBlock(block: Block, ts: seq<Token>, level: nat, buf: Option<seq<nat>>, stored: nat, opt: nat, stat: nat,
                  strategy: nat, d: int)
    requires Decided(block, ts, level, buf, stored, opt, stat, strategy)
    requires Near(ts, d) || (level == 0 && block.Stored?)
    ensures BlockNear(block, d)
  {
    hide Chosen, Near, TokensBits, AllCodable;
  }

  // ---------- delivered bytes ----------

  lemma {:induction false} BytesUnique(a: seq<nat>, b: seq<nat>)
    requires IsBytes(a) && IsBytes(b) && BytesBits(a) == BytesBits(b)
    ensures a == b
    decreases |a|
  {
    hide ToBits;
    if a != [] {
      var k := |a| - 1;
      assert a == a[..k] + [a[k]] && b == b[..k] + [b[k]];
      BytesBitsPush(a[..k], a[k]);
      BytesBitsPush(b[..k], b[k]);
      assert BytesBits(a)[..8 * k] == BytesBits(a[..k]) && BytesBits(b)[..8 * k] == BytesBits(b[..k]);
      assert BytesBits(a)[8 * k..] == ToBits(a[k], 8) && BytesBits(b)[8 * k..] == ToBits(b[k], 8);
      BytesUnique(a[..k], b[..k]);
      Pow2Values();
      FromToBits(a[k], 8);
      FromToBits(b[k], 8);
      LowId(a[k], 8);
      LowId(b[k], 8);
    }
  }

  lemma PendingPrefix(pending: seq<nat>, n: nat, buf: nat, valid: nat)
    requires n <= |pending|
    ensures BytesBits(pending[..n]) <= BytesBits(pending) + ToBits(buf, valid)
  {
    hide ToBits, BytesBits;
    BytesBitsConcat(pending[..n], pending[n..]);
    assert pending[..n] + pending[n..] == pending;
  }

  // Bytes that were delivered are the first of the pending output.
  lemma GivenIs(given: seq<nat>, pending: seq<nat>, buf: nat, valid: nat)
    requires IsBytes(given) && IsBytes(pending) && valid <= 7
    requires BytesBits(given) <= BytesBits(pending) + ToBits(buf, valid)
    ensures |given| <= |pending| && given == pending[..|given|]
  {
    hide ToBits, BytesBits;
    var n := |given|;
    GivenLength(given, pending, buf, valid);
    PendingPrefix(pending, n, buf, valid);
    assert BytesBits(given) == BytesBits(pending[..n]);
    BytesUnique(given, pending[..n]);
  }

  lemma GivenLength(given: seq<nat>, pending: seq<nat>, buf: nat, valid: nat)
    requires BytesBits(given) <= BytesBits(pending) + ToBits(buf, valid) && valid <= 7
    ensures |given| <= |pending|
  {
    hide ToBits, BytesBits;
  }

  lemma GivenMore(pending: seq<nat>, n: nat, buf: nat, valid: nat)
    requires n <= |pending| && IsBytes(pending)
    ensures IsBytes(pending[..n]) && BytesBits(pending[..n]) <= BytesBits(pending) + ToBits(buf, valid)
  {
    PendingPrefix(pending, n, buf, valid);
  }
}
