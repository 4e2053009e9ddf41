/** Bytes as the device drivers and the EEPROM image see them. */
module Bytes {
  newtype byte = x: int | 0 <= x < 256
}

/**
 The write-combining buffer of chassis/sonic_platform/sfp.py, Sfp.write_eeprom:
 writes to the extended-payload pages 160..175 of a CMIS module (CDB messaging,
 section 7.2 of OIF-CMIS-05.0) are collected and sent as one chained message.

 The reference is a module that receives every page write on its own.
 */
module EplChain {
  import opened Bytes

  const EPL_FIRST: nat := 160
  const EPL_LAST: nat := 175
  const CDB_PAGE: nat := 159
  const PAGE: nat := 128
  const EPL_SIZE: nat := 2048
  const STALE_US: int := 2000000

  /** The four fields of Sfp that write_eeprom keeps between calls. */
  datatype Chain = Chain(buf: seq<byte>, last: nat, pending: bool, stamp: int)

  /** One call of write_eeprom, its linear offset already split into page and page offset. */
  datatype Call = Call(page: nat, off: nat, n: nat, data: seq<byte>, now: int)

  datatype Msg =
    | PageWrite(page: nat, off: nat, n: nat, data: seq<byte>)
    | ChainWrite(n: nat, data: seq<byte>)

  function Min(a: nat, b: nat): nat {
    if a < b then a else b
  }

  /** Python's `buf[lo:hi] = data` on a bytearray, which may change its length. */
  function SliceAssign(buf: seq<byte>, lo: nat, hi: nat, data: seq<byte>): seq<byte> {
    var l := Min(lo, |buf|);
    var h := Min(hi, |buf|);
    buf[..l] + data + buf[if h < l then l else h..]
  }

  predicate InEpl(page: nat) {
    EPL_FIRST <= page <= EPL_LAST
  }

  /** The source's test binds the page-offset condition to pages 161..175 only. */
  predicate Collectable(c: Call) {
    (c.page == EPL_FIRST && c.n == PAGE) || (EPL_FIRST < c.page <= EPL_LAST && c.n <= PAGE && c.off == 128)
  }

  predicate Accepted(ch: Chain, c: Call) {
    Collectable(c) && (c.page == EPL_FIRST || c.page == ch.last + 1)
  }

  /** A short page, or the last one, completes the chain. */
  predicate Completes(c: Call) {
    c.n < PAGE || c.page == EPL_LAST
  }

  predicate Stale(ch: Chain, c: Call) {
    c.now - ch.stamp > STALE_US
  }

  function Reset(ch: Chain): Chain {
    ch.(last := 0, pending := false, stamp := 0)
  }

  function Collected(ch: Chain, c: Call): seq<byte>
    requires Collectable(c)
  {
    SliceAssign(ch.buf, (c.page - EPL_FIRST) * PAGE, (c.page - EPL_FIRST) * PAGE + c.n, c.data)
  }

  /** The buffer after a call; it does not depend on whether messages succeed. */
  function Next(ch: Chain, c: Call): Chain {
    if Accepted(ch, c) then
      var buf := Collected(ch, c);
      if Completes(c) then Reset(ch.(buf := buf)) else Chain(buf, c.page, true, c.now)
    else if ch.pending && (c.page == CDB_PAGE || Stale(ch, c) || InEpl(c.page)) then Reset(ch)
    else ch
  }

  /** The messages a call sends, in order. */
  function Msgs(ch: Chain, c: Call): seq<Msg> {
    if Accepted(ch, c) then
      if Completes(c) then [ChainWrite((c.page - EPL_FIRST) * PAGE + c.n, Collected(ch, c))] else []
    else
      (if ch.pending && c.page == CDB_PAGE then [ChainWrite(PendingSize(ch), ch.buf)] else [])
      + [PageWrite(c.page, c.off, c.n, c.data)]
  }

  function PendingSize(ch: Chain): nat {
    if ch.pending && ch.last >= EPL_FIRST then (ch.last - EPL_FIRST) * PAGE + PAGE else 0
  }

  /** A chain is pending exactly when the last accepted page is 160..174. */
  predicate Linked(ch: Chain) {
    ch.pending <==> EPL_FIRST <= ch.last < EPL_LAST
  }

  /** And the buffer has room for a whole chain. */
  predicate Valid(ch: Chain) {
    Linked(ch) && |ch.buf| >= EPL_SIZE
  }

  /** The caller's buffer holds what the call says it does, or more. */
  predicate Sized(c: Call) {
    |c.data| >= c.n
  }

  function Payload(c: Call): (p: seq<byte>)
    requires Sized(c)
  {
    c.data[..c.n]
  }

  lemma NextLinked(ch: Chain, c: Call)
    requires Linked(ch)
    ensures Linked(Next(ch, c))
  {
  }

  lemma NextValid(ch: Chain, c: Call)
    requires Valid(ch) && Sized(c)
    ensures Valid(Next(ch, c))
  {
  }

  /**
   A buffer argument of another length than the call says resizes the collecting
   buffer by the difference: it is kept from shrinking exactly when the argument is
   long enough, and from growing exactly when it is not too long.
   */
  lemma BufferKeepsSizeIff(ch: Chain, c: Call)
    requires Valid(ch) && Accepted(ch, c)
    ensures |Next(ch, c).buf| == |ch.buf| + |c.data| - c.n
    ensures |Next(ch, c).buf| >= |ch.buf| <==> Sized(c)
    ensures |Next(ch, c).buf| == |ch.buf| <==> |c.data| == c.n
  {
  }

  // ---------------------------------------------------------------- messages with too little data

  /** msg_send cuts messages of more than 128 bytes, except on the extended-payload pages and beyond. */
  function Granted(page: nat, n: nat): nat {
    if n > PAGE && page < EPL_FIRST then PAGE else n
  }

  /** Line 275: copying fewer bytes into the message window than it makes room for raises. */
  predicate Short(m: Msg) {
    match m
    case PageWrite(page, _, n, data) => |data| < Granted(page, n)
    case ChainWrite(n, data) => |data| < n
  }

  /** The place of the first message of a call that is short, or the number of its messages. */
  function Handed(ms: seq<Msg>): (k: nat)
    ensures k <= |ms| && (forall i :: 0 <= i < k ==> !Short(ms[i])) && (k < |ms| ==> Short(ms[k]))
  {
    if ms == [] || Short(ms[0]) then 0 else 1 + Handed(ms[1..])
  }

  predicate Raises(ch: Chain, c: Call) {
    Handed(Msgs(ch, c)) < |Msgs(ch, c)|
  }

  /** The fields after a call that may raise: raised in front of page 159's own write, the pending chain stands. */
  function After(ch: Chain, c: Call): Chain {
    if !Accepted(ch, c) && ch.pending && c.page == CDB_PAGE && Short(Msgs(ch, c)[0]) then ch else Next(ch, c)
  }

  /** With a roomy buffer and long enough arguments no call ever raises. */
  lemma NeverRaises(ch: Chain, c: Call)
    requires Valid(ch) && Sized(c)
    ensures !Raises(ch, c) && After(ch, c) == Next(ch, c)
  {
    if Accepted(ch, c) {
      CollectedBytes(ch, c);
    } else {
      assert forall m :: m in Msgs(ch, c) ==> !Short(m);
    }
  }

  // ---------------------------------------------------------------- the module's extended-payload bytes

  /** `mem` with `d` written from position `at`; what would fall outside is lost. */
  function Overlay(mem: seq<byte>, at: nat, d: seq<byte>): (r: seq<byte>)
    ensures |r| == |mem|
  {
    seq(|mem|, i requires 0 <= i < |mem| => if at <= i < at + |d| then d[i - at] else mem[i])
  }

  /** What a successful message does to the 2048 extended-payload bytes. */
  function Apply(mem: seq<byte>, m: Msg): (r: seq<byte>)
    ensures |r| == |mem|
  {
    match m
    case PageWrite(page, off, n, data) =>
      if 160 <= page <= 175 && 128 <= off then Overlay(mem, (page - 160) * 128 + (off - 128), data[..Min(n, |data|)]) else mem
    case ChainWrite(n, data) => Overlay(mem, 0, data[..Min(n, |data|)])
  }

  function ApplyAll(mem: seq<byte>, ms: seq<Msg>): (r: seq<byte>)
    ensures |r| == |mem|
    decreases |ms|
  {
    if ms == [] then mem else ApplyAll(Apply(mem, ms[0]), ms[1..])
  }

  /** The reference: the call's page write, sent as it is. */
  function Plain(mem: seq<byte>, c: Call): (r: seq<byte>)
    ensures |r| == |mem|
  {
    Apply(mem, PageWrite(c.page, c.off, c.n, c.data))
  }

  function PendingBytes(ch: Chain): seq<byte>
    requires Valid(ch)
  {
    ch.buf[..PendingSize(ch)]
  }

  /** What the caller believes is in the module: the module's bytes under the pages still being collected. */
  function Seen(ch: Chain, mem: seq<byte>): (r: seq<byte>)
    requires Valid(ch)
    ensures |r| == |mem|
  {
    Overlay(mem, 0, PendingBytes(ch))
  }

  // ---------------------------------------------------------------- exactly when collecting is invisible

  /** A whole page at a wrong offset of page 160 is collected as if it had been at offset 128. */
  predicate Misplaced(c: Call) {
    c.page == EPL_FIRST && c.n == PAGE && c.off != 128
  }

  /** The call throws collected pages away: a restart, an extended-payload write out of order, or any write too late. */
  predicate Discards(ch: Chain, c: Call) {
    ch.pending &&
    if Accepted(ch, c) then c.page == EPL_FIRST else c.page != CDB_PAGE && (Stale(ch, c) || InEpl(c.page))
  }

  /** The call itself rewrites every collected byte. */
  predicate Covers(ch: Chain, c: Call) {
    c.page == EPL_FIRST && c.off == 128 && c.n >= PendingSize(ch)
  }

  predicate Faithful(ch: Chain, c: Call) {
    !Misplaced(c) && (Discards(ch, c) ==> Covers(ch, c))
  }

  /** Page offsets as the linear offset splits: 128..255 on every page but the lower one. */
  predicate SplitOffset(c: Call) {
    c.page > 0 ==> 128 <= c.off < 256
  }

  lemma ApplyOneOrTwo(mem: seq<byte>, a: Msg, b: Msg)
    ensures ApplyAll(mem, [a]) == Apply(mem, a)
    ensures ApplyAll(mem, [a, b]) == Apply(Apply(mem, a), b)
  {
    assert [a, b][1..] == [b] && [b][1..] == [] && [a][1..] == [];
    assert ApplyAll(Apply(mem, a), [b]) == ApplyAll(Apply(Apply(mem, a), b), []);
  }

  lemma OverlayAppends(mem: seq<byte>, d: seq<byte>, e: seq<byte>)
    ensures Overlay(Overlay(mem, 0, d), |d|, e) == Overlay(mem, 0, d + e)
  {
  }

  lemma OverlayCovers(mem: seq<byte>, d: seq<byte>, e: seq<byte>)
    requires |d| <= |e|
    ensures Overlay(Overlay(mem, 0, d), 0, e) == Overlay(mem, 0, e)
  {
  }

  /** An accepted page extends the pending bytes, or starts them afresh. */
  lemma CollectedBytes(ch: Chain, c: Call)
    requires Valid(ch) && Sized(c) && Accepted(ch, c)
    ensures var at := (c.page - EPL_FIRST) * PAGE;
      && (if c.page == EPL_FIRST then at == 0 else at == PendingSize(ch))
      && at + c.n <= EPL_SIZE <= |Collected(ch, c)|
      && Collected(ch, c)[..at + c.n] == (if c.page == EPL_FIRST then [] else PendingBytes(ch)) + Payload(c)
  {
    var at := (c.page - EPL_FIRST) * PAGE;
    assert Collected(ch, c) == ch.buf[..at] + c.data + ch.buf[at + c.n..];
  }

  lemma OverlayNothing(mem: seq<byte>)
    ensures Overlay(mem, 0, []) == mem
  {
  }

  function CollectedSize(c: Call): nat
    requires Collectable(c)
  {
    (c.page - EPL_FIRST) * PAGE + c.n
  }

  /** After an accepted page the caller sees the collected bytes, whether they are still pending or were just sent. */
  lemma CollectingSeen(ch: Chain, c: Call, mem: seq<byte>)
    requires Valid(ch) && Sized(c) && |mem| == EPL_SIZE && Accepted(ch, c)
    ensures CollectedSize(c) <= |Collected(ch, c)| && Valid(Next(ch, c))
    ensures Seen(Next(ch, c), ApplyAll(mem, Msgs(ch, c))) == Overlay(mem, 0, Collected(ch, c)[..CollectedSize(c)])
  {
    CollectedBytes(ch, c);
    NextValid(ch, c);
    if Completes(c) {
      var msg := ChainWrite(CollectedSize(c), Collected(ch, c));
      ApplyOneOrTwo(mem, msg, msg);
      OverlayNothing(Apply(mem, msg));
    }
  }

  /** What the plain write of an accepted page would have made of the caller's picture. */
  lemma CollectingPlain(ch: Chain, c: Call, mem: seq<byte>)
    requires Valid(ch) && Sized(c) && |mem| == EPL_SIZE
    requires Faithful(ch, c) && Accepted(ch, c)
    ensures CollectedSize(c) <= |Collected(ch, c)|
    ensures Plain(Seen(ch, mem), c) == Overlay(mem, 0, Collected(ch, c)[..CollectedSize(c)])
  {
    CollectedBytes(ch, c);
    assert c.data[..Min(c.n, |c.data|)] == Payload(c);
    if c.page == EPL_FIRST {
      assert c.off == 128 && PendingSize(ch) <= PAGE;
      OverlayCovers(mem, PendingBytes(ch), Payload(c));
      assert [] + Payload(c) == Payload(c);
    } else {
      OverlayAppends(mem, PendingBytes(ch), Payload(c));
    }
  }

  /** A call that is neither collected nor page 159's: the one message sent is its own write. */
  lemma PlainRefines(ch: Chain, c: Call, mem: seq<byte>)
    requires Valid(ch) && Sized(c) && SplitOffset(c) && |mem| == EPL_SIZE
    requires Faithful(ch, c) && !Accepted(ch, c) && c.page != CDB_PAGE
    ensures Seen(Next(ch, c), Plain(mem, c)) == Plain(Seen(ch, mem), c)
  {
    assert c.data[..Min(c.n, |c.data|)] == Payload(c);
    if Next(ch, c).pending {
      assert Plain(mem, c) == mem;
    } else {
      OverlayNothing(Plain(mem, c));
      if ch.pending { OverlayCovers(mem, PendingBytes(ch), Payload(c)); } else { OverlayNothing(mem); }
    }
  }

  /** A write to page 159 first sends what is pending, and then leaves the extended-payload bytes alone. */
  lemma FlushingRefines(ch: Chain, c: Call, mem: seq<byte>)
    requires Valid(ch) && |mem| == EPL_SIZE && c.page == CDB_PAGE
    ensures Valid(Next(ch, c)) && Seen(Next(ch, c), ApplyAll(mem, Msgs(ch, c))) == Plain(Seen(ch, mem), c)
  {
    var plain := PageWrite(c.page, c.off, c.n, c.data);
    if ch.pending {
      var first := ChainWrite(PendingSize(ch), ch.buf);
      assert Msgs(ch, c) == [first, plain];
      ApplyOneOrTwo(mem, first, plain);
    } else {
      assert Msgs(ch, c) == [plain];
      ApplyOneOrTwo(mem, plain, plain);
    }
    OverlayNothing(ApplyAll(mem, Msgs(ch, c)));
  }

  lemma PassingRefines(ch: Chain, c: Call, mem: seq<byte>)
    requires Valid(ch) && Sized(c) && SplitOffset(c) && |mem| == EPL_SIZE
    requires Faithful(ch, c) && !Accepted(ch, c)
    ensures Valid(Next(ch, c)) && Seen(Next(ch, c), ApplyAll(mem, Msgs(ch, c))) == Plain(Seen(ch, mem), c)
  {
    NextValid(ch, c);
    if c.page == CDB_PAGE {
      FlushingRefines(ch, c, mem);
    } else {
      var plain := PageWrite(c.page, c.off, c.n, c.data);
      assert Msgs(ch, c) == [plain];
      ApplyOneOrTwo(mem, plain, plain);
      PlainRefines(ch, c, mem);
    }
  }

  /** A faithful call leaves the caller's picture exactly as a plain page write would. */
  lemma FaithfulStepRefines(ch: Chain, c: Call, mem: seq<byte>)
    requires Valid(ch) && Sized(c) && SplitOffset(c) && |mem| == EPL_SIZE && Faithful(ch, c)
    ensures Valid(Next(ch, c)) && Seen(Next(ch, c), ApplyAll(mem, Msgs(ch, c))) == Plain(Seen(ch, mem), c)
  {
    if Accepted(ch, c) { CollectingSeen(ch, c, mem); CollectingPlain(ch, c, mem); } else { PassingRefines(ch, c, mem); }
  }

  /** Some byte unlike x. */
  function Other(x: byte): (y: byte)
    ensures y != x
  {
    if x == 0 then 1 else 0
  }

  /** Any other call loses or misplaces bytes of some module. */
  lemma UnfaithfulStepDiffers(ch: Chain, c: Call) returns (mem: seq<byte>)
    requires Valid(ch) && Sized(c) && SplitOffset(c) && !Faithful(ch, c)
    ensures |mem| == EPL_SIZE && Valid(Next(ch, c))
    ensures Seen(Next(ch, c), ApplyAll(mem, Msgs(ch, c))) != Plain(Seen(ch, mem), c)
  {
    var plain := PageWrite(c.page, c.off, c.n, c.data);
    assert c.data[..Min(c.n, |c.data|)] == Payload(c);
    if Misplaced(c) {
      // the last byte belongs beyond page 160 and never gets there
      var p := c.off - 128 + PAGE - 1;
      mem := seq(EPL_SIZE, i => Other(c.data[PAGE - 1]));
      assert Plain(Seen(ch, mem), c)[p] == c.data[PAGE - 1];
      assert Seen(Next(ch, c), mem)[p] == mem[p];
    } else {
      // the first collected byte that the call does not rewrite is gone
      var p := if c.page == EPL_FIRST && c.off == 128 then c.n else 0;
      mem := seq(EPL_SIZE, i => Other(ch.buf[p]));
      ApplyOneOrTwo(mem, plain, plain);
      assert Plain(Seen(ch, mem), c)[p] == ch.buf[p];
      assert Seen(Next(ch, c), ApplyAll(mem, Msgs(ch, c)))[p] == mem[p];
    }
  }

  /**
   Collecting is invisible on a call, whatever the module holds, exactly when the
   call is faithful: no whole page at a wrong offset of page 160, and no collected
   page thrown away that the call does not itself rewrite.
   */
  lemma CollectingInvisibleIff(ch: Chain, c: Call)
    requires Valid(ch) && Sized(c) && SplitOffset(c)
    ensures Valid(Next(ch, c))
    ensures Faithful(ch, c) <==>
            (forall mem: seq<byte> :: |mem| == EPL_SIZE ==>
               Seen(Next(ch, c), ApplyAll(mem, Msgs(ch, c))) == Plain(Seen(ch, mem), c))
  {
    NextValid(ch, c);
    if Faithful(ch, c) {
      forall mem: seq<byte> | |mem| == EPL_SIZE
        ensures Seen(Next(ch, c), ApplyAll(mem, Msgs(ch, c))) == Plain(Seen(ch, mem), c)
      {
        FaithfulStepRefines(ch, c, mem);
      }
    } else {
      var mem := UnfaithfulStepDiffers(ch, c);
    }
  }

  // ---------------------------------------------------------------- whole runs

  function RunChain(ch: Chain, cs: seq<Call>): Chain
    decreases |cs|
  {
    if cs == [] then ch else RunChain(Next(ch, cs[0]), cs[1..])
  }

  function RunMsgs(ch: Chain, cs: seq<Call>): seq<Msg>
    decreases |cs|
  {
    if cs == [] then [] else Msgs(ch, cs[0]) + RunMsgs(Next(ch, cs[0]), cs[1..])
  }

  function PlainAll(mem: seq<byte>, cs: seq<Call>): (r: seq<byte>)
    ensures |r| == |mem|
    decreases |cs|
  {
    if cs == [] then mem else PlainAll(Plain(mem, cs[0]), cs[1..])
  }

  predicate WellFormed(cs: seq<Call>) {
    forall c :: c in cs ==> Sized(c) && SplitOffset(c)
  }

  predicate AllFaithful(ch: Chain, cs: seq<Call>)
    decreases |cs|
  {
    cs == [] || (Faithful(ch, cs[0]) && AllFaithful(Next(ch, cs[0]), cs[1..]))
  }

  lemma {:induction false} RunValid(ch: Chain, cs: seq<Call>)
    requires Valid(ch) && WellFormed(cs)
    ensures Valid(RunChain(ch, cs))
    decreases |cs|
  {
    if cs != [] {
      assert cs[0] in cs;
      NextValid(ch, cs[0]);
      RunValid(Next(ch, cs[0]), cs[1..]);
    }
  }

  lemma {:induction false} ApplyAllAppend(mem: seq<byte>, a: seq<Msg>, b: seq<Msg>)
    ensures ApplyAll(mem, a + b) == ApplyAll(ApplyAll(mem, a), b)
    decreases |a|
  {
    if a == [] {
      assert a + b == b;
    } else {
      assert (a + b)[1..] == a[1..] + b;
      ApplyAllAppend(Apply(mem, a[0]), a[1..], b);
    }
  }

  /**
   Over any run of faithful calls, in any mixture of pages, the module's bytes
   under the pages still pending are those of a module that got every page write
   on its own; with nothing pending the two modules are equal.
   */
  lemma {:induction false} RunRefines(ch: Chain, cs: seq<Call>, mem: seq<byte>)
    requires Valid(ch) && WellFormed(cs) && |mem| == EPL_SIZE && AllFaithful(ch, cs)
    ensures Valid(RunChain(ch, cs))
    ensures Seen(RunChain(ch, cs), ApplyAll(mem, RunMsgs(ch, cs))) == PlainAll(Seen(ch, mem), cs)
    ensures !RunChain(ch, cs).pending ==> ApplyAll(mem, RunMsgs(ch, cs)) == PlainAll(Seen(ch, mem), cs)
    decreases |cs|
  {
    RunValid(ch, cs);
    if cs != [] {
      assert cs[0] in cs;
      FaithfulStepRefines(ch, cs[0], mem);
      ApplyAllAppend(mem, Msgs(ch, cs[0]), RunMsgs(Next(ch, cs[0]), cs[1..]));
      RunRefines(Next(ch, cs[0]), cs[1..], ApplyAll(mem, Msgs(ch, cs[0])));
    }
    OverlayNothing(ApplyAll(mem, RunMsgs(ch, cs)));
  }

  // ---------------------------------------------------------------- where every accepted byte goes

  /** What becomes of a batch of collected bytes. */
  datatype Fate = Sent(bytes: seq<byte>) | Restarted(bytes: seq<byte>) | OutOfOrder(bytes: seq<byte>) | TooLate(bytes: seq<byte>)

  function FateOf(ch: Chain, c: Call): seq<Fate>
    requires Valid(ch) && Sized(c)
  {
    if Accepted(ch, c) then
      if c.page == EPL_FIRST then (if ch.pending then [Restarted(PendingBytes(ch))] else [])
      else if Completes(c) then [Sent(PendingBytes(ch) + Payload(c))]
      else []
    else if !ch.pending then []
    else if c.page == CDB_PAGE then [Sent(PendingBytes(ch))]
    else if InEpl(c.page) then [OutOfOrder(PendingBytes(ch))]
    else if Stale(ch, c) then [TooLate(PendingBytes(ch))]
    else []
  }

  function Fates(ch: Chain, cs: seq<Call>): seq<Fate>
    requires Valid(ch) && WellFormed(cs)
    decreases |cs|
  {
    if cs == [] then [] else
      assert cs[0] in cs;
      NextValid(ch, cs[0]);
      FateOf(ch, cs[0]) + Fates(Next(ch, cs[0]), cs[1..])
  }

  function BytesOf(fs: seq<Fate>): seq<byte> {
    if fs == [] then [] else fs[0].bytes + BytesOf(fs[1..])
  }

  /** The bytes of the pages accepted into the buffer, in order. */
  function AcceptedBytes(ch: Chain, cs: seq<Call>): seq<byte>
    requires WellFormed(cs)
    decreases |cs|
  {
    if cs == [] then [] else
      assert cs[0] in cs;
      (if Accepted(ch, cs[0]) then Payload(cs[0]) else []) + AcceptedBytes(Next(ch, cs[0]), cs[1..])
  }

  function SentBatches(fs: seq<Fate>): seq<seq<byte>> {
    if fs == [] then [] else (if fs[0].Sent? then [fs[0].bytes] else []) + SentBatches(fs[1..])
  }

  /** The payloads of the chained messages among some messages. */
  function ChainPayloads(ms: seq<Msg>): seq<seq<byte>> {
    if ms == [] then [] else
      (if ms[0].ChainWrite? then [ms[0].data[..Min(ms[0].n, |ms[0].data|)]] else []) + ChainPayloads(ms[1..])
  }

  lemma {:induction false} BytesOfAppend(a: seq<Fate>, b: seq<Fate>)
    ensures BytesOf(a + b) == BytesOf(a) + BytesOf(b)
  {
    if a == [] {
      assert a + b == b;
    } else {
      assert (a + b)[1..] == a[1..] + b;
      BytesOfAppend(a[1..], b);
    }
  }

  lemma {:induction false} SentBatchesAppend(a: seq<Fate>, b: seq<Fate>)
    ensures SentBatches(a + b) == SentBatches(a) + SentBatches(b)
  {
    if a == [] {
      assert a + b == b;
    } else {
      assert (a + b)[1..] == a[1..] + b;
      SentBatchesAppend(a[1..], b);
    }
  }

  lemma {:induction false} ChainPayloadsAppend(a: seq<Msg>, b: seq<Msg>)
    ensures ChainPayloads(a + b) == ChainPayloads(a) + ChainPayloads(b)
  {
    if a == [] {
      assert a + b == b;
    } else {
      assert (a + b)[1..] == a[1..] + b;
      ChainPayloadsAppend(a[1..], b);
      var first := if a[0].ChainWrite? then [a[0].data[..Min(a[0].n, |a[0].data|)]] else [];
      assert first + (ChainPayloads(a[1..]) + ChainPayloads(b)) == first + ChainPayloads(a[1..]) + ChainPayloads(b);
    }
  }

  lemma StepConserves(ch: Chain, c: Call)
    requires Valid(ch) && Sized(c)
    ensures Valid(Next(ch, c))
    ensures PendingBytes(ch) + (if Accepted(ch, c) then Payload(c) else []) == BytesOf(FateOf(ch, c)) + PendingBytes(Next(ch, c))
    ensures ChainPayloads(Msgs(ch, c)) == SentBatches(FateOf(ch, c))
  {
    NextValid(ch, c);
    if Accepted(ch, c) { CollectedBytes(ch, c); }
    var plain := PageWrite(c.page, c.off, c.n, c.data);
    assert ChainPayloads([plain]) == [];
    var first := ChainWrite(PendingSize(ch), ch.buf);
    assert [first, plain][1..] == [plain];
    assert [first] + [plain] == [first, plain];
  }

  /** Chaining two balances. */
  lemma Rebalance(pending: seq<byte>, mine: seq<byte>, rest: seq<byte>, gone: seq<byte>, next: seq<byte>, goneRest: seq<byte>, end: seq<byte>)
    requires pending + mine == gone + next
    requires next + rest == goneRest + end
    ensures pending + (mine + rest) == (gone + goneRest) + end
  {
    assert pending + (mine + rest) == (pending + mine) + rest;
    assert (gone + next) + rest == gone + (next + rest);
    assert gone + (goneRest + end) == (gone + goneRest) + end;
  }

  /**
   Conservation over every run: the accepted bytes, in order, are the bytes sent,
   the bytes dropped (by a restart, an out-of-order page or the two-second rule)
   and the bytes still pending.
   */
  lemma {:induction false} EveryAcceptedByteAccountedFor(ch: Chain, cs: seq<Call>)
    requires Valid(ch) && WellFormed(cs)
    ensures Valid(RunChain(ch, cs))
    ensures PendingBytes(ch) + AcceptedBytes(ch, cs) == BytesOf(Fates(ch, cs)) + PendingBytes(RunChain(ch, cs))
    decreases |cs|
  {
    if cs == [] {
      assert PendingBytes(ch) + [] == [] + PendingBytes(ch);
    } else {
      assert cs[0] in cs;
      var next := Next(ch, cs[0]);
      StepConserves(ch, cs[0]);
      EveryAcceptedByteAccountedFor(next, cs[1..]);
      BytesOfAppend(FateOf(ch, cs[0]), Fates(next, cs[1..]));
      Rebalance(PendingBytes(ch), if Accepted(ch, cs[0]) then Payload(cs[0]) else [], AcceptedBytes(next, cs[1..]),
                BytesOf(FateOf(ch, cs[0])), PendingBytes(next), BytesOf(Fates(next, cs[1..])), PendingBytes(RunChain(next, cs[1..])));
    }
  }

  /** Over every run the chained messages carry exactly the batches sent, in order, each once. */
  lemma {:induction false} EveryBatchSentOnce(ch: Chain, cs: seq<Call>)
    requires Valid(ch) && WellFormed(cs)
    ensures ChainPayloads(RunMsgs(ch, cs)) == SentBatches(Fates(ch, cs))
    decreases |cs|
  {
    if cs != [] {
      assert cs[0] in cs;
      var next := Next(ch, cs[0]);
      StepConserves(ch, cs[0]);
      EveryBatchSentOnce(next, cs[1..]);
      SentBatchesAppend(FateOf(ch, cs[0]), Fates(next, cs[1..]));
      ChainPayloadsAppend(Msgs(ch, cs[0]), RunMsgs(next, cs[1..]));
    }
  }

  // ---------------------------------------------------------------- the two-second rule, from the calls' own times

  /** The fields in front of call i. */
  function StateAt(ch: Chain, cs: seq<Call>, i: nat): Chain
    requires i <= |cs|
  {
    RunChain(ch, cs[..i])
  }

  lemma {:induction false} RunChainAppend(ch: Chain, cs: seq<Call>, c: Call)
    ensures RunChain(ch, cs + [c]) == Next(RunChain(ch, cs), c)
    decreases |cs|
  {
    if cs == [] {
      assert [c][1..] == [];
    } else {
      assert (cs + [c])[1..] == cs[1..] + [c];
      RunChainAppend(Next(ch, cs[0]), cs[1..], c);
    }
  }

  lemma StateAfter(ch: Chain, cs: seq<Call>, i: nat)
    requires i < |cs|
    ensures StateAt(ch, cs, i + 1) == Next(StateAt(ch, cs, i), cs[i])
  {
    assert cs[..i + 1] == cs[..i] + [cs[i]];
    RunChainAppend(ch, cs[..i], cs[i]);
  }

  lemma StateIsValid(ch: Chain, cs: seq<Call>, i: nat)
    requires Valid(ch) && WellFormed(cs) && i <= |cs|
    ensures Valid(StateAt(ch, cs, i))
  {
    assert forall c :: c in cs[..i] ==> c in cs;
    RunValid(ch, cs[..i]);
  }

  /** Call a is the last page taken into the buffer before call i. */
  predicate LastAccepted(ch: Chain, cs: seq<Call>, a: nat, i: nat)
    requires a < i <= |cs|
  {
    Accepted(StateAt(ch, cs, a), cs[a]) && forall m :: a < m < i ==> !Accepted(StateAt(ch, cs, m), cs[m])
  }

  /** While something is pending, the stamp is the time of the last page taken. */
  lemma {:induction false} StampedByLastAccepted(ch: Chain, cs: seq<Call>, a: nat, i: nat)
    requires a < i <= |cs| && LastAccepted(ch, cs, a, i) && StateAt(ch, cs, i).pending
    ensures StateAt(ch, cs, i).stamp == cs[a].now
    decreases i
  {
    StateAfter(ch, cs, i - 1);
    if a < i - 1 { StampedByLastAccepted(ch, cs, a, i - 1); }
  }

  lemma {:induction false} SomeAccepted(ch: Chain, cs: seq<Call>, i: nat) returns (a: nat)
    requires i <= |cs| && !ch.pending && StateAt(ch, cs, i).pending
    ensures a < i && LastAccepted(ch, cs, a, i)
    decreases i
  {
    assert cs[..0] == [];
    StateAfter(ch, cs, i - 1);
    if Accepted(StateAt(ch, cs, i - 1), cs[i - 1]) { a := i - 1; } else { a := SomeAccepted(ch, cs, i - 1); }
  }

  /**
   A page taken into the buffer waits for 2,000,000 microseconds and no longer: a later
   call on a page outside 159..175 leaves the pending bytes exactly as they are if it
   comes within that time of the last page taken, and drops them otherwise.
   */
  lemma PendingForTwoSeconds(ch: Chain, cs: seq<Call>, a: nat, i: nat)
    requires Valid(ch) && WellFormed(cs) && a < i < |cs| && LastAccepted(ch, cs, a, i)
    requires StateAt(ch, cs, i).pending && !(159 <= cs[i].page <= 175)
    ensures Valid(StateAt(ch, cs, i)) && Valid(StateAt(ch, cs, i + 1))
    ensures if cs[i].now - cs[a].now <= 2000000
            then StateAt(ch, cs, i + 1).pending && PendingBytes(StateAt(ch, cs, i + 1)) == PendingBytes(StateAt(ch, cs, i))
            else !StateAt(ch, cs, i + 1).pending && PendingBytes(StateAt(ch, cs, i + 1)) == []
  {
    StampedByLastAccepted(ch, cs, a, i);
    StateAfter(ch, cs, i);
    StateIsValid(ch, cs, i);
    StateIsValid(ch, cs, i + 1);
  }

  /** The shortest case: a page that does not complete, and the very next call. */
  lemma WaitsForTwoSeconds(ch: Chain, a: Call, b: Call)
    requires Valid(ch) && Sized(a) && Sized(b) && !(159 <= b.page <= 175)
    requires a.n == 128 && (a.page == 160 || (161 <= a.page <= 174 && a.off == 128 && a.page == ch.last + 1))
    ensures Valid(Next(ch, a)) && Valid(Next(Next(ch, a), b))
    ensures PendingBytes(Next(ch, a)) == (if a.page == 160 then [] else PendingBytes(ch)) + a.data[..128]
    ensures PendingBytes(Next(Next(ch, a), b)) == if b.now - a.now <= 2000000 then PendingBytes(Next(ch, a)) else []
  {
    NextValid(ch, a);
    NextValid(Next(ch, a), b);
    CollectedBytes(ch, a);
  }

  /** Over every run that starts with nothing pending: what is dropped for lateness comes more than two seconds after the last page taken. */
  lemma DroppedOnlyWhenLate(ch: Chain, cs: seq<Call>, i: nat, f: Fate) returns (a: nat)
    requires Valid(ch) && !ch.pending && WellFormed(cs) && i < |cs| && Valid(StateAt(ch, cs, i))
    requires Sized(cs[i]) && f in FateOf(StateAt(ch, cs, i), cs[i]) && f.TooLate?
    ensures a < i && LastAccepted(ch, cs, a, i) && cs[i].now - cs[a].now > 2000000
  {
    a := SomeAccepted(ch, cs, i);
    StampedByLastAccepted(ch, cs, a, i);
  }

  // ---------------------------------------------------------------- one payload, one message

  /** A payload written page by page from page 160, the last page possibly short, at times of the caller's choosing. */
  function PageCalls(p: seq<byte>, k: nat, clock: nat -> int): seq<Call>
    decreases |p| - k * PAGE
  {
    if k * PAGE >= |p| then [] else
      [PageCall(p, k, clock)] + PageCalls(p, k + 1, clock)
  }

  /** The message m puts payload p, and nothing else, at the front of the extended-payload bytes. */
  ghost predicate Delivers(m: Msg, p: seq<byte>) {
    |p| <= EPL_SIZE && forall mem: seq<byte> :: |mem| == EPL_SIZE ==> Apply(mem, m) == p + mem[|p|..]
  }

  lemma ChainDelivers(n: nat, data: seq<byte>, p: seq<byte>)
    requires |p| == n <= EPL_SIZE && |data| >= n && data[..n] == p
    ensures Delivers(ChainWrite(n, data), p)
  {
  }

  lemma RunMsgsCons(ch: Chain, c: Call, cs: seq<Call>)
    ensures RunMsgs(ch, [c] + cs) == Msgs(ch, c) + RunMsgs(Next(ch, c), cs)
  {
    assert ([c] + cs)[1..] == cs;
  }

  lemma RunMsgsStep(ch: Chain, c: Call, rest: seq<Call>, cs: seq<Call>, now: seq<Msg>, later: seq<Msg>)
    requires cs == [c] + rest && Msgs(ch, c) == now && RunMsgs(Next(ch, c), rest) == later
    ensures RunMsgs(ch, cs) == now + later
  {
    RunMsgsCons(ch, c, rest);
  }

  lemma FinalCall(ch: Chain, c: Call)
    requires Valid(ch) && c.page == CDB_PAGE
    ensures RunMsgs(ch, [c]) ==
            (if ch.pending then [ChainWrite(PendingSize(ch), ch.buf)] else []) + [PageWrite(c.page, c.off, c.n, c.data)]
  {
    RunMsgsCons(ch, c, []);
    assert [c] + [] == [c];
  }

  function PageCall(p: seq<byte>, k: nat, clock: nat -> int): Call
    requires k * PAGE < |p|
  {
    var n := Min(PAGE, |p| - k * PAGE);
    Call(160 + k, 128, n, p[k * PAGE..k * PAGE + n], clock(k))
  }

  /** The k-th page of a payload is next. */
  predicate Arriving(ch: Chain, p: seq<byte>, k: nat) {
    && Valid(ch) && k * PAGE < |p| <= EPL_SIZE
    && if k == 0 then |p| >= PAGE else ch.pending && ch.last == EPL_FIRST + k - 1 && PendingBytes(ch) == p[..k * PAGE]
  }

  /** The k-th page of a payload, arriving in turn, is accepted and extends the collected prefix. */
  lemma NextPageCollected(ch: Chain, p: seq<byte>, k: nat, clock: nat -> int)
    requires Arriving(ch, p, k)
    ensures var c := PageCall(p, k, clock);
      && Accepted(ch, c) && Valid(Next(ch, c))
      && CollectedSize(c) == k * PAGE + c.n <= |p| && |Collected(ch, c)| >= EPL_SIZE
      && Collected(ch, c)[..CollectedSize(c)] == p[..CollectedSize(c)]
      && (if Completes(c) then CollectedSize(c) == |p| else CollectedSize(c) == (k + 1) * PAGE)
  {
    var c := PageCall(p, k, clock);
    CollectedBytes(ch, c);
    NextValid(ch, c);
    assert k > 0 ==> p[..k * PAGE] + c.data == p[..k * PAGE + c.n];
    assert k == 0 ==> [] + c.data == p[..c.n];
  }

  /** It either completes the payload, which goes out in one message, or waits for the next page. */
  lemma NextPageOutcome(ch: Chain, p: seq<byte>, k: nat, clock: nat -> int)
    requires Arriving(ch, p, k)
    ensures var c := PageCall(p, k, clock);
            var next := Next(ch, c);
      && Valid(next)
      && if Completes(c) then
           var m := ChainWrite(|p|, Collected(ch, c));
           !next.pending && Msgs(ch, c) == [m] && Delivers(m, p) && (k + 1) * PAGE >= |p|
         else
           next.pending && next.last == EPL_FIRST + k && Msgs(ch, c) == []
           && (k + 1) * PAGE <= |p| && PendingBytes(next) == p[..(k + 1) * PAGE]
  {
    NextPageCollected(ch, p, k, clock);
    var c := PageCall(p, k, clock);
    if Completes(c) {
      assert p[..|p|] == p;
      ChainDelivers(|p|, Collected(ch, c), p);
    }
  }

  lemma FirstPage(p: seq<byte>, k: nat, clock: nat -> int, c: Call)
    requires k * PAGE < |p|
    ensures PageCalls(p, k, clock) + [c] == [PageCall(p, k, clock)] + (PageCalls(p, k + 1, clock) + [c])
    ensures (k + 1) * PAGE >= |p| ==> PageCalls(p, k + 1, clock) + [c] == [c]
  {
  }

  lemma {:induction false} RestOfPayload(ch: Chain, p: seq<byte>, k: nat, clock: nat -> int, c: Call) returns (m: Msg)
    requires Valid(ch) && ch.pending && ch.last == EPL_FIRST + k - 1 && k >= 1
    requires k * PAGE <= |p| <= EPL_SIZE && PendingBytes(ch) == p[..k * PAGE]
    requires c.page == CDB_PAGE
    ensures RunMsgs(ch, PageCalls(p, k, clock) + [c]) == [m, PageWrite(c.page, c.off, c.n, c.data)]
    ensures m.ChainWrite? && Delivers(m, p)
    decreases |p| - k * PAGE
  {
    if k * PAGE == |p| {
      m := ChainWrite(PendingSize(ch), ch.buf);
      ChainDelivers(|p|, ch.buf, p);
      assert PageCalls(p, k, clock) + [c] == [c];
      FinalCall(ch, c);
    } else {
      m := NextPageThenRest(ch, p, k, clock, c);
    }
  }

  /** The page that completes the payload sends it, and page 159's write follows. */
  lemma LastPageThenCdb(ch: Chain, p: seq<byte>, k: nat, clock: nat -> int, c: Call)
    requires Arriving(ch, p, k) && c.page == CDB_PAGE && Completes(PageCall(p, k, clock))
    ensures RunMsgs(ch, PageCalls(p, k, clock) + [c]) ==
            [ChainWrite(|p|, Collected(ch, PageCall(p, k, clock))), PageWrite(c.page, c.off, c.n, c.data)]
  {
    var c0 := PageCall(p, k, clock);
    var m, plain := ChainWrite(|p|, Collected(ch, c0)), PageWrite(c.page, c.off, c.n, c.data);
    FirstPage(p, k, clock, c);
    NextPageOutcome(ch, p, k, clock);
    FinalCall(Next(ch, c0), c);
    assert [] + [plain] == [plain] && [m] + [plain] == [m, plain];
    RunMsgsStep(ch, c0, [c], PageCalls(p, k, clock) + [c], [m], [plain]);
  }

  /** A page that waits for the next one sends nothing. */
  lemma WaitingPageSendsNothing(ch: Chain, p: seq<byte>, k: nat, clock: nat -> int, c: Call, ms: seq<Msg>)
    requires Arriving(ch, p, k) && !Completes(PageCall(p, k, clock))
    requires RunMsgs(Next(ch, PageCall(p, k, clock)), PageCalls(p, k + 1, clock) + [c]) == ms
    ensures RunMsgs(ch, PageCalls(p, k, clock) + [c]) == ms
  {
    FirstPage(p, k, clock, c);
    NextPageOutcome(ch, p, k, clock);
    assert [] + ms == ms;
    RunMsgsStep(ch, PageCall(p, k, clock), PageCalls(p, k + 1, clock) + [c], PageCalls(p, k, clock) + [c], [], ms);
  }

  lemma {:induction false} NextPageThenRest(ch: Chain, p: seq<byte>, k: nat, clock: nat -> int, c: Call) returns (m: Msg)
    requires Arriving(ch, p, k) && c.page == CDB_PAGE
    ensures RunMsgs(ch, PageCalls(p, k, clock) + [c]) == [m, PageWrite(c.page, c.off, c.n, c.data)]
    ensures m.ChainWrite? && Delivers(m, p)
    decreases |p| - k * PAGE, 0
  {
    var c0 := PageCall(p, k, clock);
    NextPageOutcome(ch, p, k, clock);
    if Completes(c0) {
      m := ChainWrite(|p|, Collected(ch, c0));
      LastPageThenCdb(ch, p, k, clock, c);
    } else {
      m := RestOfPayload(Next(ch, c0), p, k + 1, clock, c);
      WaitingPageSendsNothing(ch, p, k, clock, c, [m, PageWrite(c.page, c.off, c.n, c.data)]);
    }
  }

  /**
   From any state of the buffer, any payload of 1 to 2048 bytes written in
   ascending pages and followed by a write to page 159 reaches the module whole,
   in exactly one message, before the page-159 write is issued.
   */
  lemma PayloadArrivesInOneMessage(ch: Chain, p: seq<byte>, clock: nat -> int, c: Call) returns (m: Msg)
    requires Valid(ch) && 1 <= |p| <= 2048 && c.page == 159
    ensures RunMsgs(ch, PageCalls(p, 0, clock) + [c]) == [m, PageWrite(c.page, c.off, c.n, c.data)]
    ensures Delivers(m, p)
  {
    if |p| >= PAGE {
      m := NextPageThenRest(ch, p, 0, clock, c);
    } else {
      var c0 := PageCall(p, 0, clock);
      m := PageWrite(c0.page, c0.off, c0.n, c0.data);
      assert p[0..|p|] == p;
      assert PageCalls(p, 0, clock) + [c] == [c0] + [c];
      RunMsgsCons(ch, c0, [c]);
      NextValid(ch, c0);
      FinalCall(Next(ch, c0), c);
    }
  }
}
