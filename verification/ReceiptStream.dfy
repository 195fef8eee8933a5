/**
 The SSE receipt stream (src/routes/receipt-stream.ts:116-190): each chunk of bytes is
 decoded on its own, an incremental splitter of event blocks rolls a hash chain over the
 text, and what passes is encoded again. The chain step is a parameter.
 */
module ReceiptStream {
  import opened Wrappers
  import opened Utf8
  import opened Utf8Decoder
  import opened Sequences
  import Base64Url

  type Text = seq<Unit>
  const LF: Unit := 10
  const COLON: Unit := 58

  predicate BreakAt(s: Text, i: int) { 0 <= i < |s| - 1 && s[i] == LF && s[i + 1] == LF }

  /** `s.indexOf("\n\n")`. */
  function IndexOfBreak(s: Text): (i: int)
    ensures i >= 0 ==> BreakAt(s, i) && forall k | k < i :: !BreakAt(s, k)
    ensures i < 0 ==> i == -1 && forall k :: !BreakAt(s, k)
  {
    if |s| < 2 then -1
    else if BreakAt(s, 0) then 0
    else
      var j := IndexOfBreak(s[1..]);
      assert forall k | k > 0 :: BreakAt(s, k) == BreakAt(s[1..], k - 1);
      if j < 0 then -1 else j + 1
  }

  /** The complete event blocks of a text, without their delimiters. */
  function Blocks(s: Text): seq<Text>
    decreases |s|
  {
    var i := IndexOfBreak(s);
    if i < 0 then [] else [s[..i]] + Blocks(s[i + 2..])
  }

  /** What follows the last delimiter. */
  function Residual(s: Text): (r: Text)
    ensures IndexOfBreak(r) < 0
    decreases |s|
  {
    var i := IndexOfBreak(s);
    if i < 0 then s else Residual(s[i + 2..])
  }

  function Terminated(blocks: seq<Text>): Text {
    if blocks == [] then [] else blocks[0] + [LF, LF] + Terminated(blocks[1..])
  }

  /** The bytes enqueued for a list of blocks: each is encoded with its delimiter. */
  function Emitted(blocks: seq<Text>): Bytes {
    if blocks == [] then [] else Encode(blocks[0] + [LF, LF]) + Emitted(blocks[1..])
  }

  predicate DataLine(line: Text) { line != [] && line[0] != COLON }

  function DataLines(lines: seq<Text>): seq<Text> {
    if lines == [] then []
    else if DataLine(lines[0]) then [lines[0]] + DataLines(lines[1..])
    else DataLines(lines[1..])
  }

  /** At least one line of the block is neither empty nor a comment. */
  predicate Carries(block: Text) { DataLines(Split(block, LF)) != [] }

  function Events(blocks: seq<Text>): (r: seq<Text>)
    ensures |r| <= |blocks|
    ensures forall e | e in r :: e in blocks && Carries(e)
  {
    if blocks == [] then []
    else if Carries(blocks[0]) then [blocks[0]] + Events(blocks[1..])
    else Events(blocks[1..])
  }

  type Step<!H> = (H, seq<Byte>, nat) -> H

  /** The chain over numbered events, starting at sequence number `seqNo`. */
  function Fold<H>(step: Step<H>, tip: H, seqNo: nat, events: seq<Text>): H
    decreases |events|
  {
    if events == [] then tip
    else Fold(step, step(tip, Encode(events[0]), seqNo), seqNo + 1, events[1..])
  }

  /** Everything the wrapper's closure variables hold, with the bytes already enqueued. */
  datatype State<H> = State(tip: H, count: nat, pending: Text, out: Bytes)

  /** Hash and pass through the given blocks, leaving `rest` pending. */
  function Consume<H>(step: Step<H>, s: State<H>, blocks: seq<Text>, rest: Text): State<H> {
    var events := Events(blocks);
    State(Fold(step, s.tip, s.count, events), s.count + |events|, rest, s.out + Emitted(blocks))
  }

  function Settle<H>(step: Step<H>, s: State<H>, text: Text): State<H> {
    Consume(step, s, Blocks(text), Residual(text))
  }

  /** The state after one block. */
  function Rolled<H>(step: Step<H>, s: State<H>, block: Text, rest: Text): State<H> {
    State(if Carries(block) then step(s.tip, Encode(block), s.count) else s.tip,
          if Carries(block) then s.count + 1 else s.count, rest, s.out + Encode(block + [LF, LF]))
  }

  /** The state once no complete block is left pending. */
  function Final<H>(step: Step<H>, s: State<H>): State<H> { Settle(step, s, s.pending) }

  /** One `pull` of a chunk, described on the whole pending text at once. */
  function Absorb<H>(step: Step<H>, s: State<H>, chunk: Text): State<H> {
    Settle(step, s, s.pending + chunk)
  }

  function AbsorbAll<H>(step: Step<H>, s: State<H>, chunks: seq<Text>): State<H> {
    if chunks == [] then s else Absorb(step, AbsorbAll(step, s, chunks[..|chunks| - 1]), chunks[|chunks| - 1])
  }

  function Opened<H>(open: H): State<H> { State(open, 0, [], []) }

  /** The close event names the tip, the count and the open hash inside a signed base64url payload. */
  function CloseBlock(envelope: seq<Byte>): Text {
    CloseHead() + [LF] + (DataField() + Base64Url.B64Encode(envelope))
  }

  function CloseHead(): (t: Text)
    ensures LF !in t && t != []
  {
    NoLfInAscii("event: interlace-stream-close");
    Ascii("event: interlace-stream-close")
  }

  function DataField(): (t: Text)
    ensures LF !in t
  {
    NoLfInAscii("data: ");
    Ascii("data: ")
  }

  lemma NoLfInAscii(s: string)
    requires forall i | 0 <= i < |s| :: s[i] as int < 0x80 && s[i] != '\n'
    ensures LF !in Ascii(s)
  {
    forall i | 0 <= i < |s| ensures Ascii(s)[i] != LF { assert s[i] as int != 10; }
  }

  class Wrapper<H> {
    const step: Step<H>
    const openHash: H
    /** Close commitment to signed envelope bytes: open hash, tip hash, count. */
    const sign: (H, H, nat) -> seq<Byte>
    var rollingHash: H
    var eventCount: nat
    var pending: Text
    var closeEmitted: bool
    var enqueued: Bytes

    function View(): State<H> reads this {
      State(rollingHash, eventCount, pending, enqueued)
    }

    constructor (step: Step<H>, openHash: H, sign: (H, H, nat) -> seq<Byte>)
      ensures this.step == step && this.openHash == openHash && this.sign == sign
      ensures View() == Opened(openHash) && !closeEmitted
    {
      this.step, this.openHash, this.sign := step, openHash, sign;
      rollingHash, eventCount, pending, closeEmitted, enqueued := openHash, 0, [], false, [];
    }

    /** The body of the flush loop: hash the block if it carries data, then pass it through. */
    method RollBlock(eventBlock: Text)
      modifies `rollingHash, `eventCount, `enqueued
      ensures View() == Rolled(step, old(View()), eventBlock, pending)
    {
      var nonComment := DataLines(Split(eventBlock, LF));
      if |nonComment| > 0 {
        rollingHash := step(rollingHash, Encode(eventBlock), eventCount);
        eventCount := eventCount + 1;
      }
      enqueued := enqueued + Encode(eventBlock + [LF, LF]);
    }

    method FlushPendingEvents()
      modifies this
      ensures View() == Final(step, old(View())) && closeEmitted == old(closeEmitted)
    {
      hide Encode, Emitted, Events, Fold;
      ghost var goal := Final(step, View());
      var idx := IndexOfBreak(pending);
      while idx >= 0
        invariant idx == IndexOfBreak(pending)
        invariant closeEmitted == old(closeEmitted)
        invariant Final(step, View()) == goal
        decreases |pending|
      {
        ghost var before := View();
        var eventBlock := pending[..idx];
        pending := pending[idx + 2..];
        assert Rolled(step, View(), eventBlock, pending) == Rolled(step, before, eventBlock, pending);
        RollBlock(eventBlock);
        SettleOneBlock(step, before, eventBlock, pending);
        idx := IndexOfBreak(pending);
      }
      SettleNothing(step, View());
    }

    /** A fresh decoder for every chunk. */
    method PullChunk(value: Bytes)
      modifies this
      ensures View() == Absorb(step, old(View()), DecodeChunk(value)) && closeEmitted == old(closeEmitted)
    {
      ghost var start := View();
      pending := pending + DecodeChunk(value);
      SettleIgnoresPending(step, start, View(), pending);
      FlushPendingEvents();
    }

    method EmitCloseEvent()
      modifies this
      ensures closeEmitted
      ensures rollingHash == old(rollingHash) && eventCount == old(eventCount) && pending == old(pending)
      ensures enqueued == old(enqueued)
              + (if old(closeEmitted) then [] else Encode(CloseBlock(sign(openHash, rollingHash, eventCount)) + [LF, LF]))
    {
      if closeEmitted { return; }
      closeEmitted := true;
      enqueued := enqueued + Encode(CloseBlock(sign(openHash, rollingHash, eventCount)) + [LF, LF]);
    }

    method PullDone()
      modifies this
      ensures closeEmitted && pending == [] && rollingHash == old(rollingHash) && eventCount == old(eventCount)
      ensures enqueued == old(enqueued + Encode(pending))
              + (if old(closeEmitted) then [] else Encode(CloseBlock(sign(openHash, rollingHash, eventCount)) + [LF, LF]))
    {
      if |pending| > 0 {
        enqueued := enqueued + Encode(pending);
        pending := [];
      }
      EmitCloseEvent();
    }

    /** The consumer pulls until the upstream reports done. */
    method Drive(chunks: seq<Bytes>)
      requires View() == Opened(openHash) && !closeEmitted
      modifies this
      ensures var text := TextOf(chunks);
        && rollingHash == Fold(step, openHash, 0, Events(Blocks(text)))
        && eventCount == |Events(Blocks(text))|
        && enqueued == Encode(text) + Encode(CloseBlock(sign(openHash, rollingHash, eventCount)) + [LF, LF])
    {
      ghost var texts := DecodeAll(chunks);
      for i := 0 to |chunks|
        invariant View() == AbsorbAll(step, Opened(openHash), texts[..i])
        invariant !closeEmitted
      {
        AbsorbOneMore(step, Opened(openHash), texts, i);
        PullChunk(chunks[i]);
      }
      assert texts[..|chunks|] == texts;
      AllPulled(step, openHash, chunks);
      PullDone();
    }
  }

  // ---- One block at a time ----

  lemma SettleIgnoresPending<H>(step: Step<H>, s: State<H>, t: State<H>, text: Text)
    requires s.tip == t.tip && s.count == t.count && s.out == t.out
    ensures Settle(step, s, text) == Settle(step, t, text)
  {
  }

  lemma SettleNothing<H>(step: Step<H>, s: State<H>)
    requires IndexOfBreak(s.pending) < 0
    ensures Final(step, s) == s
  {
    assert s.out + Emitted([]) == s.out;
  }

  lemma UnfoldBlocks(p: Text)
    requires IndexOfBreak(p) >= 0
    ensures var i := IndexOfBreak(p); Blocks(p) == [p[..i]] + Blocks(p[i + 2..]) && Residual(p) == Residual(p[i + 2..])
  {
  }

  lemma {:induction false} TipOfBoth<H>(step: Step<H>, tip: H, n: nat, a: seq<Text>, b: seq<Text>)
    ensures Fold(step, Fold(step, tip, n, Events(a)), n + |Events(a)|, Events(b)) == Fold(step, tip, n, Events(a + b))
    ensures |Events(a)| + |Events(b)| == |Events(a + b)|
  {
    EventsAppend(a, b);
    FoldAppend(step, tip, n, Events(a), Events(b));
  }

  lemma {:induction false} OutOfBoth(out: Bytes, a: seq<Text>, b: seq<Text>)
    ensures out + Emitted(a) + Emitted(b) == out + Emitted(a + b)
  {
    EmittedAppend(a, b);
    Regroup(out, Emitted(a), Emitted(b));
  }

  lemma {:induction false} ConsumeAppend<H>(step: Step<H>, s: State<H>, a: seq<Text>, mid: Text, b: seq<Text>, rest: Text)
    ensures Consume(step, Consume(step, s, a, mid), b, rest) == Consume(step, s, a + b, rest)
  {
    hide Encode, Emitted, Events, Fold;
    TipOfBoth(step, s.tip, s.count, a, b);
    OutOfBoth(s.out, a, b);
  }

  lemma ConsumeOne<H>(step: Step<H>, s: State<H>, block: Text, rest: Text)
    ensures Consume(step, s, [block], rest) == Rolled(step, s, block, rest)
  {
    assert Emitted([]) == [] && Emitted([block]) == Encode(block + [LF, LF]) + [];
    assert Events([block]) == if Carries(block) then [block] else [];
    if Carries(block) { assert Fold(step, s.tip, s.count, [block]) == step(s.tip, Encode(block), s.count); }
  }

  lemma SettleOneBlock<H>(step: Step<H>, s: State<H>, block: Text, rest: Text)
    requires IndexOfBreak(s.pending) == |block| && s.pending[..|block|] == block && s.pending[|block| + 2..] == rest
    ensures Final(step, Rolled(step, s, block, rest)) == Final(step, s)
  {
    ConsumeOne(step, s, block, rest);
    UnfoldBlocks(s.pending);
    ConsumeAppend(step, s, [block], rest, Blocks(rest), Residual(rest));
  }

  // ---- Chunking does not matter ----

  lemma BreakStays(a: Text, b: Text)
    requires IndexOfBreak(a) >= 0
    ensures IndexOfBreak(a + b) == IndexOfBreak(a)
  {
    var s, i := a + b, IndexOfBreak(a);
    assert BreakAt(s, i);
    assert forall k | k < i :: BreakAt(s, k) == BreakAt(a, k);
  }

  /** Splitting resumes from the residual as if the text had come at once. */
  lemma {:induction false} BlocksOfSplitText(a: Text, b: Text)
    ensures Blocks(a + b) == Blocks(a) + Blocks(Residual(a) + b)
    ensures Residual(a + b) == Residual(Residual(a) + b)
    decreases |a|
  {
    var i := IndexOfBreak(a);
    if i < 0 {
      assert Blocks(a) == [] && Residual(a) == a;
      assert [] + Blocks(a + b) == Blocks(a + b);
    } else {
      var rest := a[i + 2..];
      BreakStays(a, b);
      assert (a + b)[..i] == a[..i] && (a + b)[i + 2..] == rest + b;
      UnfoldBlocks(a);
      UnfoldBlocks(a + b);
      BlocksOfSplitText(rest, b);
      Regroup([a[..i]], Blocks(rest), Blocks(Residual(rest) + b));
    }
  }

  lemma EmittedAppend(a: seq<Text>, b: seq<Text>)
    ensures Emitted(a + b) == Emitted(a) + Emitted(b)
  {
    if a == [] { assert a + b == b; } else { assert (a + b)[1..] == a[1..] + b; }
  }

  lemma EventsAppend(a: seq<Text>, b: seq<Text>)
    ensures Events(a + b) == Events(a) + Events(b)
  {
    if a == [] { assert a + b == b; } else { assert (a + b)[1..] == a[1..] + b; }
  }

  lemma {:induction false} FoldAppend<H>(step: Step<H>, tip: H, n: nat, a: seq<Text>, b: seq<Text>)
    ensures Fold(step, tip, n, a + b) == Fold(step, Fold(step, tip, n, a), n + |a|, b)
    decreases |a|
  {
    if a == [] {
      assert a + b == b;
    } else {
      assert (a + b)[1..] == a[1..] + b;
      FoldAppend(step, step(tip, Encode(a[0]), n), n + 1, a[1..], b);
    }
  }

  lemma AbsorbOneMore<H>(step: Step<H>, s: State<H>, chunks: seq<Text>, i: nat)
    requires i < |chunks|
    ensures AbsorbAll(step, s, chunks[..i + 1]) == Absorb(step, AbsorbAll(step, s, chunks[..i]), chunks[i])
  {
    assert chunks[..i + 1][..i] == chunks[..i] && chunks[..i + 1][i] == chunks[i];
  }

  lemma AbsorbTwice<H>(step: Step<H>, s: State<H>, a: Text, b: Text)
    ensures Absorb(step, Absorb(step, s, a), b) == Absorb(step, s, a + b)
  {
    var x := s.pending + a;
    Regroup(s.pending, a, b);
    BlocksOfSplitText(x, b);
    ConsumeAppend(step, s, Blocks(x), Residual(x), Blocks(Residual(x) + b), Residual(Residual(x) + b));
  }

  /** However the text is cut into chunks, the stream ends in the same state. */
  lemma {:induction false} ChunkingInvariance<H>(step: Step<H>, open: H, chunks: seq<Text>)
    ensures AbsorbAll(step, Opened(open), chunks) == Absorb(step, Opened(open), Flatten(chunks))
    decreases |chunks|
  {
    if chunks == [] {
      SettleNothing(step, Opened(open));
      assert [] + Flatten(chunks) == Opened(open).pending;
    } else {
      var front, last := chunks[..|chunks| - 1], chunks[|chunks| - 1];
      ChunkingInvariance(step, open, front);
      AbsorbTwice(step, Opened(open), Flatten(front), last);
      FlattenSnoc(front, last);
      assert front + [last] == chunks;
    }
  }

  lemma TerminatedCons(block: Text, rest: seq<Text>)
    ensures Terminated([block] + rest) == block + [LF, LF] + Terminated(rest)
  {
    assert ([block] + rest)[1..] == rest;
  }

  lemma SplitAtBreak(s: Text, i: int)
    requires BreakAt(s, i)
    ensures s == s[..i] + [LF, LF] + s[i + 2..]
  {
    assert s[i..i + 2] == [LF, LF];
  }

  lemma {:induction false} BlocksRebuildText(s: Text)
    ensures Terminated(Blocks(s)) + Residual(s) == s
    decreases |s|
  {
    var i := IndexOfBreak(s);
    if i >= 0 {
      var block, rest := s[..i], s[i + 2..];
      BlocksRebuildText(rest);
      UnfoldBlocks(s);
      RebuildStep(block, Blocks(rest), Residual(rest), rest);
      SplitAtBreak(s, i);
    }
  }

  lemma RebuildStep(block: Text, blocks: seq<Text>, residual: Text, rest: Text)
    requires Terminated(blocks) + residual == rest
    ensures Terminated([block] + blocks) + residual == block + [LF, LF] + rest
  {
    TerminatedCons(block, blocks);
    Regroup(block + [LF, LF], Terminated(blocks), residual);
  }

  lemma TerminatedWellFormed(block: Text)
    requires WellFormed(block)
    ensures WellFormed(block + [LF, LF])
  {
    NoSurrogatesWellFormed([LF, LF]);
    WellFormedAppend(block, [LF, LF]);
  }

  /** Encoding block by block and the rest at the end is encoding the whole text. */
  lemma {:induction false} EmittedIsEncoded(text: Text)
    requires WellFormed(text)
    ensures Emitted(Blocks(text)) + Encode(Residual(text)) == Encode(text)
    decreases |text|
  {
    var i := IndexOfBreak(text);
    if i < 0 {
      assert Emitted([]) == [];
    } else {
      var block, rest := text[..i], text[i + 2..];
      BreakPiecesWellFormed(text, i);
      EmittedIsEncoded(rest);
      UnfoldBlocks(text);
      SplitAtBreak(text, i);
      TerminatedWellFormed(block);
      EncodeAppend(block + [LF, LF], rest);
      EmittedCons(block, Blocks(rest));
      Regroup(Encode(block + [LF, LF]), Emitted(Blocks(rest)), Encode(Residual(rest)));
    }
  }

  lemma EmittedCons(block: Text, rest: seq<Text>)
    ensures Emitted([block] + rest) == Encode(block + [LF, LF]) + Emitted(rest)
  {
    assert ([block] + rest)[1..] == rest;
  }

  /** Before the close event the consumer receives the decoded text, encoded again. */
  lemma PassThrough<H>(step: Step<H>, open: H, text: Text)
    requires WellFormed(text)
    ensures var s := Absorb(step, Opened(open), text);
      && s.out + Encode(s.pending) == Encode(text)
      && s.tip == Fold(step, open, 0, Events(Blocks(text))) && s.count == |Events(Blocks(text))|
  {
    assert [] + text == text;
    EmittedIsEncoded(text);
    assert [] + Emitted(Blocks(text)) == Emitted(Blocks(text));
  }

  /** The wrapper's state after it has pulled these chunks. */
  function Pulled<H>(step: Step<H>, open: H, chunks: seq<Bytes>): State<H> {
    AbsorbAll(step, Opened(open), DecodeAll(chunks))
  }

  lemma AllPulled<H>(step: Step<H>, open: H, chunks: seq<Bytes>)
    ensures var s, text := Pulled(step, open, chunks), TextOf(chunks);
      && s == Absorb(step, Opened(open), text)
      && s.out + Encode(s.pending) == Encode(text)
      && s.tip == Fold(step, open, 0, Events(Blocks(text))) && s.count == |Events(Blocks(text))|
  {
    ChunkingInvariance(step, open, DecodeAll(chunks));
    TextWellFormed(chunks);
    PassThrough(step, open, TextOf(chunks));
  }

  /**
   The consumer receives the upstream bytes unchanged exactly when no chunk starts with a
   byte order mark and every chunk is well-formed UTF-8 on its own, a U+FFFD cut after its
   second byte excepted.
   */
  lemma BytesPassExactly<H>(step: Step<H>, open: H, chunks: seq<Bytes>)
    ensures var s := Pulled(step, open, chunks);
      s.out + Encode(s.pending) == Flatten(chunks) <==> Passes(chunks)
  {
    AllPulled(step, open, chunks);
    StreamPassesExactly(chunks);
  }

  /** However the bytes are cut into such chunks, the stream ends in the same state. */
  lemma CutsDoNotMatter<H>(step: Step<H>, open: H, a: seq<Bytes>, b: seq<Bytes>)
    requires Flatten(a) == Flatten(b) && Passes(a) && Passes(b)
    ensures Pulled(step, open, a) == Pulled(step, open, b)
  {
    StreamPassesExactly(a);
    StreamPassesExactly(b);
    TextWellFormed(a);
    TextWellFormed(b);
    EncodeInjective(TextOf(a), TextOf(b));
    AllPulled(step, open, a);
    AllPulled(step, open, b);
  }

  // ---- Which blocks are hashed ----

  /** A line starts at `i` with something other than a line feed or a colon. */
  predicate DataStart(block: Text, i: int) {
    0 <= i < |block| && (i == 0 || block[i - 1] == LF) && block[i] != LF && block[i] != COLON
  }

  ghost predicate HasDataStart(block: Text) {
    exists i :: DataStart(block, i)
  }

  lemma OneLine(line: Text)
    requires LF !in line
    ensures HasDataStart(line) <==> DataLine(line)
  {
    assert forall i | 0 <= i < |line| :: line[i] in line;
    if DataLine(line) { assert DataStart(line, 0); }
  }

  lemma DataLinesCons(line: Text, rest: seq<Text>)
    ensures DataLines([line] + rest) == (if DataLine(line) then [line] else []) + DataLines(rest)
  {
    assert ([line] + rest)[1..] == rest;
  }

  lemma CarriesSplit(block: Text, lf: nat)
    requires lf == Find(block, LF) < |block|
    ensures Carries(block) <==> DataLine(block[..lf]) || Carries(block[lf + 1..])
  {
    DataLinesCons(block[..lf], Split(block[lf + 1..], LF));
  }

  lemma CarriesOneLine(line: Text)
    requires LF !in line
    ensures Carries(line) <==> DataLine(line)
  {
    FindAbsent(line, LF);
    assert line[..|line|] == line;
    assert DataLines([line]) == if DataLine(line) then [line] else [];
  }

  /** A block is hashed exactly when some line starts with something other than a colon or a line feed. */
  lemma {:induction false} CarriesExactly(block: Text)
    ensures Carries(block) <==> HasDataStart(block)
    decreases |block|
  {
    var lf := Find(block, LF);
    if lf == |block| {
      assert block[..lf] == block;
      OneLine(block);
      CarriesOneLine(block);
    } else {
      CarriesSplit(block, lf);
      CarriesExactly(block[lf + 1..]);
      OneLine(block[..lf]);
      StartsSplit(block, lf);
    }
  }

  lemma StartsSplit(block: Text, lf: nat)
    requires lf < |block| && block[lf] == LF
    ensures HasDataStart(block) <==> HasDataStart(block[..lf]) || HasDataStart(block[lf + 1..])
  {
    var line, rest := block[..lf], block[lf + 1..];
    if i :| DataStart(block, i) {
      if i < lf { assert DataStart(line, i); }
      else { assert DataStart(rest, i - lf - 1); }
    }
    if i :| DataStart(line, i) { assert DataStart(block, i); }
    if i :| DataStart(rest, i) { assert DataStart(block, lf + 1 + i); }
  }

  // ---- The chain commits to the events ----

  ghost predicate InjectiveStep<H(!new)>(step: Step<H>) {
    forall h, e, n, h', e', n' :: step(h, e, n) == step(h', e', n') ==> h == h' && e == e' && n == n'
  }

  lemma {:induction false} FoldInjective<H(!new)>(step: Step<H>, h1: H, h2: H, n: nat, a: seq<Text>, b: seq<Text>)
    requires InjectiveStep(step) && |a| == |b|
    requires forall i | 0 <= i < |a| :: WellFormed(a[i]) && WellFormed(b[i])
    requires Fold(step, h1, n, a) == Fold(step, h2, n, b)
    ensures h1 == h2 && a == b
    decreases |a|
  {
    if a != [] {
      FoldInjective(step, step(h1, Encode(a[0]), n), step(h2, Encode(b[0]), n), n + 1, a[1..], b[1..]);
      EncodeInjective(a[0], b[0]);
      assert a == [a[0]] + a[1..] && b == [b[0]] + b[1..];
    }
  }

  lemma BreakPiecesWellFormed(text: Text, i: int)
    requires WellFormed(text) && BreakAt(text, i)
    ensures WellFormed(text[..i]) && WellFormed(text[i + 2..])
  {
    assert text == text[..i] + [LF] + text[i + 1..];
    WellFormedPieces(text[..i], LF, text[i + 1..]);
    assert text[i + 1..] == [] + [LF] + text[i + 2..];
    WellFormedPieces([], LF, text[i + 2..]);
  }

  lemma {:induction false} BlocksWellFormed(text: Text)
    requires WellFormed(text)
    ensures forall b | b in Blocks(text) :: WellFormed(b)
    decreases |text|
  {
    hide WellFormed;
    var i := IndexOfBreak(text);
    if i >= 0 {
      BreakPiecesWellFormed(text, i);
      UnfoldBlocks(text);
      BlocksWellFormed(text[i + 2..]);
    }
  }

  lemma EventsWellFormed(text: Text)
    requires WellFormed(text)
    ensures forall i | 0 <= i < |Events(Blocks(text))| :: WellFormed(Events(Blocks(text))[i])
  {
    BlocksWellFormed(text);
    forall i | 0 <= i < |Events(Blocks(text))| ensures WellFormed(Events(Blocks(text))[i]) {
      assert Events(Blocks(text))[i] in Events(Blocks(text));
    }
  }

  lemma FoldDecides<H(!new)>(step: Step<H>, h1: H, h2: H, a: seq<Text>, b: seq<Text>)
    requires InjectiveStep(step)
    requires forall i | 0 <= i < |a| :: WellFormed(a[i])
    requires forall i | 0 <= i < |b| :: WellFormed(b[i])
    ensures |a| == |b| && Fold(step, h1, 0, a) == Fold(step, h2, 0, b) <==> h1 == h2 && a == b
  {
    if |a| == |b| && Fold(step, h1, 0, a) == Fold(step, h2, 0, b) { FoldInjective(step, h1, h2, 0, a, b); }
  }

  /** Under an injective step, equal tip and count mean the same open hash and the same events. */
  lemma TipDecidesEvents<H(!new)>(step: Step<H>, open1: H, open2: H, t1: Text, t2: Text)
    requires InjectiveStep(step) && WellFormed(t1) && WellFormed(t2)
    ensures var s1, s2 := Absorb(step, Opened(open1), t1), Absorb(step, Opened(open2), t2);
      s1.tip == s2.tip && s1.count == s2.count
      <==> open1 == open2 && Events(Blocks(t1)) == Events(Blocks(t2))
  {
    PassThrough(step, open1, t1);
    PassThrough(step, open2, t2);
    EventsWellFormed(t1);
    EventsWellFormed(t2);
    FoldDecides(step, open1, open2, Events(Blocks(t1)), Events(Blocks(t2)));
  }

  // ---- What the consumer sees ----

  lemma NoBreak(s: Text)
    requires forall i :: !BreakAt(s, i)
    ensures IndexOfBreak(s) < 0
  {
    assert !BreakAt(s, IndexOfBreak(s));
  }

  lemma CloseBlockShape(envelope: seq<Byte>)
    ensures var c := CloseBlock(envelope);
      |c| > 1 && c[0] != LF && c[|c| - 1] != LF && forall i :: !BreakAt(c, i)
  {
    var payload := Base64Url.B64Encode(envelope);
    Base64Url.EncodeAlphabet(envelope);
    assert LF !in payload;
    OneLineFeed(CloseHead(), DataField() + payload);
    assert |DataField()| == 6;
    assert CloseBlock(envelope)[0] == CloseHead()[0];
  }

  lemma OneLineFeed(head: Text, tail: Text)
    requires tail != [] && LF !in head && LF !in tail
    ensures var c := head + [LF] + tail; c[|c| - 1] != LF && forall i :: !BreakAt(c, i)
  {
    var c := head + [LF] + tail;
    assert c[|c| - 1] == tail[|tail| - 1];
    assert forall i | 0 <= i < |c| && i != |head| :: c[i] in head || c[i] in tail;
  }

  lemma GluedHasNoBreak(r: Text, c: Text)
    requires c != [] && c[0] != LF
    requires IndexOfBreak(r) < 0 && forall i :: !BreakAt(c, i)
    ensures IndexOfBreak(r + c) < 0
  {
    var g := r + c;
    forall i ensures !BreakAt(g, i) {
      if 0 <= i < |r| - 1 { assert g[i] == r[i] && g[i + 1] == r[i + 1] && !BreakAt(r, i); }
      else if i == |r| - 1 { assert g[i + 1] == c[0]; }
      else if i >= |r| { assert !BreakAt(c, i - |r|); }
    }
    NoBreak(g);
  }

  lemma BlocksOfOne(block: Text)
    requires block != [] && block[|block| - 1] != LF && IndexOfBreak(block) < 0
    ensures Blocks(block + [LF, LF]) == [block] && Residual(block + [LF, LF]) == []
  {
    var s := block + [LF, LF];
    var i := IndexOfBreak(s);
    assert s[|block| - 1] != LF && s[|block|] == LF && s[|block| + 1] == LF;
    assert BreakAt(s, |block|) && !BreakAt(s, |block| - 1);
    assert forall k | k < |block| - 1 :: BreakAt(s, k) == BreakAt(block, k);
    assert i == |block|;
    assert s[..i] == block && s[i + 2..] == [];
    assert Blocks([]) == [] && Residual([]) == [];
    UnfoldBlocks(s);
  }

  /**
   A consumer that splits the received stream gets the upstream blocks followed by
   the close event as a block of its own exactly when the upstream text ended with a
   blank line; otherwise the close event is glued to the unfinished event.
   */
  lemma CloseEventStandsAlone(text: Text, envelope: seq<Byte>)
    ensures var close := CloseBlock(envelope);
      && Blocks(text + (close + [LF, LF])) == Blocks(text) + [Residual(text) + close]
      && Residual(text + (close + [LF, LF])) == []
      && (Blocks(text + (close + [LF, LF])) == Blocks(text) + [close] <==> Residual(text) == [])
  {
    var close, r := CloseBlock(envelope), Residual(text);
    CloseBlockShape(envelope);
    GluedHasNoBreak(r, close);
    var glued := r + close;
    assert glued[|glued| - 1] == close[|close| - 1];
    BlocksOfOne(glued);
    BlocksOfSplitText(text, close + [LF, LF]);
    Regroup(r, close, [LF, LF]);
    LastBlock(Blocks(text), glued, close);
    assert glued == close <==> r == [] by { assert |glued| == |r| + |close|; }
  }

  lemma LastBlock(front: seq<Text>, a: Text, b: Text)
    ensures front + [a] == front + [b] <==> a == b
  {
    assert (front + [a])[|front|] == a && (front + [b])[|front|] == b;
  }

  /** Two lines: the event's name, and the envelope in base64url behind "data: ". */
  lemma CloseBlockReadsBack(envelope: seq<Byte>)
    ensures var lines := Split(CloseBlock(envelope), 10);
      && |lines| == 2 && lines[0] == Ascii("event: interlace-stream-close")
      && |lines[1]| >= 6 && lines[1][..6] == Ascii("data: ")
      && Base64Url.B64Decode(lines[1][6..]) == Some(envelope)
  {
    var data := DataField() + Base64Url.B64Encode(envelope);
    Base64Url.EncodeAlphabet(envelope);
    assert LF !in data;
    FindSplits(CloseHead(), LF, data);
    FindAbsent(data, LF);
    assert CloseBlock(envelope)[..|CloseHead()|] == CloseHead() && CloseBlock(envelope)[|CloseHead()| + 1..] == data;
    assert data[..6] == Ascii("data: ") && data[6..] == Base64Url.B64Encode(envelope);
    Base64Url.RoundTrip(envelope);
  }

  // ---- Recomputing the tip from the text ----

  ghost predicate NoBlankLine(t: Text) { forall k | 0 <= k < |t| - 1 :: !(t[k] == 10 && t[k + 1] == 10) }

  /** Blocks with a blank line behind each, cut at the first place possible, and what is left. */
  ghost predicate Cut(text: Text, blocks: seq<Text>, rest: Text)
    decreases |blocks|
  {
    if blocks == [] then text == rest && NoBlankLine(rest)
    else && NoBlankLine(blocks[0] + [10]) && blocks[0] + [10, 10] <= text
         && Cut(text[|blocks[0]| + 2..], blocks[1..], rest)
  }

  /** A block with data moves the hash and the count on; any other leaves both. */
  ghost predicate RollsOver<H>(step: Step<H>, block: Text, h: H, n: nat, h': H, n': nat) {
    if HasDataStart(block) then h' == step(h, Encode(block), n) && n' == n + 1 else h' == h && n' == n
  }

  ghost predicate Rolls<H>(step: Step<H>, blocks: seq<Text>, hs: seq<H>, ns: seq<nat>) {
    && |hs| == |blocks| + 1 && |ns| == |blocks| + 1
    && forall i | 0 <= i < |blocks| :: RollsOver(step, blocks[i], hs[i], ns[i], hs[i + 1], ns[i + 1])
  }

  lemma FirstBreak(s: Text, i: nat)
    requires IndexOfBreak(s) == i
    ensures i + 2 <= |s| && NoBlankLine(s[..i] + [10]) && s[..i] + [10, 10] <= s
  {
    SplitAtBreak(s, i);
    var b := s[..i] + [10];
    forall k | 0 <= k < |b| - 1 ensures !(b[k] == 10 && b[k + 1] == 10) {
      assert !BreakAt(s, k) && b[k] == s[k];
      assert b[k + 1] == s[k + 1];
    }
  }

  lemma NoBreakNoBlank(s: Text)
    requires IndexOfBreak(s) < 0
    ensures NoBlankLine(s)
  {
    assert forall k | 0 <= k < |s| - 1 :: !BreakAt(s, k);
  }

  lemma CutCons(text: Text, block: Text, blocks: seq<Text>, rest: Text)
    requires NoBlankLine(block + [10]) && block + [10, 10] <= text && Cut(text[|block| + 2..], blocks, rest)
    ensures Cut(text, [block] + blocks, rest)
  {
    assert ([block] + blocks)[1..] == blocks;
  }

  lemma {:induction false} BlocksAreCut(s: Text)
    ensures Cut(s, Blocks(s), Residual(s))
    decreases |s|
  {
    hide Cut;
    var i := IndexOfBreak(s);
    if i < 0 {
      NoBreakNoBlank(s);
      NothingCut(s);
    } else {
      FirstBreak(s, i);
      UnfoldBlocks(s);
      BlocksAreCut(s[i + 2..]);
      CutCons(s, s[..i], Blocks(s[i + 2..]), Residual(s[i + 2..]));
    }
  }

  lemma NothingCut(s: Text)
    requires NoBlankLine(s)
    ensures Cut(s, [], s)
  {
  }

  lemma {:induction false} FoldRolls<H(!new)>(step: Step<H>, tip: H, n: nat, blocks: seq<Text>) returns (hs: seq<H>, ns: seq<nat>)
    ensures Rolls(step, blocks, hs, ns) && hs[0] == tip && ns[0] == n
    ensures hs[|blocks|] == Fold(step, tip, n, Events(blocks)) && ns[|blocks|] == n + |Events(blocks)|
    decreases |blocks|
  {
    if blocks == [] {
      hs, ns := [tip], [n];
    } else {
      var block, rest := blocks[0], blocks[1..];
      CarriesExactly(block);
      var h, m := if Carries(block) then step(tip, Encode(block), n) else tip, if Carries(block) then n + 1 else n;
      var hs', ns' := FoldRolls(step, h, m, rest);
      hs, ns := [tip] + hs', [n] + ns';
      FoldOneBlock(step, tip, n, blocks);
      RollsCons(step, block, rest, tip, n, hs', ns');
      assert [block] + rest == blocks;
    }
  }

  lemma FoldOneBlock<H>(step: Step<H>, tip: H, n: nat, blocks: seq<Text>)
    requires blocks != []
    ensures var block, rest := blocks[0], Events(blocks[1..]);
      && Fold(step, tip, n, Events(blocks))
         == (if Carries(block) then Fold(step, step(tip, Encode(block), n), n + 1, rest) else Fold(step, tip, n, rest))
      && |Events(blocks)| == (if Carries(block) then 1 else 0) + |rest|
  {
    var block, rest := blocks[0], Events(blocks[1..]);
    if Carries(block) { assert ([block] + rest)[0] == block && ([block] + rest)[1..] == rest; }
  }

  lemma RollsCons<H>(step: Step<H>, block: Text, rest: seq<Text>, tip: H, n: nat, hs: seq<H>, ns: seq<nat>)
    requires Rolls(step, rest, hs, ns) && RollsOver(step, block, tip, n, hs[0], ns[0])
    ensures Rolls(step, [block] + rest, [tip] + hs, [n] + ns)
  {
    var blocks, hs', ns' := [block] + rest, [tip] + hs, [n] + ns;
    forall i | 0 <= i < |blocks| ensures RollsOver(step, blocks[i], hs'[i], ns'[i], hs'[i + 1], ns'[i + 1]) {
      if i > 0 { assert RollsOver(step, rest[i - 1], hs[i - 1], ns[i - 1], hs[i], ns[i]); }
    }
  }

  ghost predicate Recomputed<H(!new)>(step: Step<H>, open: H, text: Text, tip: H, count: nat) {
    exists blocks, rest, hs, ns :: Cut(text, blocks, rest) && Rolls(step, blocks, hs, ns)
      && hs[0] == open && ns[0] == 0 && hs[|blocks|] == tip && ns[|blocks|] == count
  }

  /**
   From the decoded text alone: cut it at its blank lines and hash, one on top of the other,
   numbered from zero, the blocks in which some line is neither empty nor a comment.
   */
  lemma TipRecomputes<H(!new)>(step: Step<H>, open: H, chunks: seq<Bytes>)
    ensures var s := Pulled(step, open, chunks); Recomputed(step, open, TextOf(chunks), s.tip, s.count)
  {
    var text := TextOf(chunks);
    AllPulled(step, open, chunks);
    BlocksAreCut(text);
    var hs, ns := FoldRolls(step, open, 0, Blocks(text));
  }
}
