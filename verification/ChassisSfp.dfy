/**
 The path from one transceiver object to its module
 (chassis/sonic_platform/sfp.py): MDIPC.msg_send as the rest of the file sees
 it, answering from a script that stands for the NDK peer and the module, and
 two clocks that only move forward.
 */
module ModuleLink {
  import opened Bytes
  import opened Wrappers
  import EplChain

  const RSP_SUCCESS: nat := 0
  const RSP_FAIL: nat := 1
  const CHUNK: nat := 128

  /** What becomes of one message: no free channel, no answer in time, or a status and the bytes in the window. */
  datatype Reply = NoChannel | TimedOut | Answered(status: nat, window: nat -> byte)

  /** What happened, in order: device traffic, completed cache fills, and flushes. */
  datatype Event =
    | ReadOk(page: nat, off: nat, data: seq<byte>)
    | ReadFailed(page: nat, off: nat)
    | Wrote(msg: EplChain.Msg, ok: bool)
    | Filled(page: nat, ts: int)
    | Flushed(hard: bool)

  /** What an exchange with the peer leaves on the trace says truly how the message was answered. */
  ghost predicate Fits(e: Event, r: Reply) {
    match e
    case ReadOk(_, _, data) =>
      r.Answered? && r.status == 0 && forall i :: 0 <= i < |data| ==> data[i] == r.window(i)
    case ReadFailed(_, _) => !(r.Answered? && r.status == 0)
    case Wrote(_, ok) => ok <==> r.Answered? && r.status == 0
    case _ => true
  }

  /** Every exchange on the trace was with the peer, one reply each, in order, and none is missing. */
  ghost predicate Matches(trace: seq<Event>, replies: nat -> Reply, sent: nat) {
    if trace == [] then sent == 0
    else
      var e, before := trace[|trace| - 1], trace[..|trace| - 1];
      if e.Filled? || e.Flushed? then Matches(before, replies, sent)
      else sent > 0 && Fits(e, replies(sent - 1)) && Matches(before, replies, sent - 1)
  }

  lemma MatchesMore(trace: seq<Event>, replies: nat -> Reply, sent: nat, e: Event)
    requires Matches(trace, replies, sent)
    ensures e.Filled? || e.Flushed? ==> Matches(trace + [e], replies, sent)
    ensures !(e.Filled? || e.Flushed?) && Fits(e, replies(sent)) ==> Matches(trace + [e], replies, sent + 1)
  {
    assert (trace + [e])[..|trace|] == trace;
  }

  class Link {
    // what becomes of the messages, one after the other
    const replies: nat -> Reply
    var sent: nat
    var pace: seq<nat>
    var now: int
    var mono: int
    // how often each clock was read
    ghost var told: nat
    ghost var asked: nat
    ghost var trace: seq<Event>

    ghost predicate Honest()
      reads this
    {
      Matches(trace, replies, sent)
    }

    /** time.time(): never earlier than before. */
    method Time() returns (t: int)
      modifies this`pace, this`now, this`told
      ensures old(now) <= now == t && told == old(told) + 1
    {
      if pace != [] { now, pace := now + pace[0], pace[1..]; }
      t := now;
      told := told + 1;
    }

    /** time.monotonic_ns() in microseconds. */
    method Monotonic() returns (t: int)
      modifies this`pace, this`mono, this`asked
      ensures old(mono) <= mono == t && asked == old(asked) + 1
    {
      if pace != [] { mono, pace := mono + pace[0], pace[1..]; }
      t := mono;
      asked := asked + 1;
    }

    method Exchange() returns (r: Reply)
      modifies this`sent
      ensures r == replies(old(sent)) && sent == old(sent) + 1
    {
      r := replies(sent);
      sent := sent + 1;
    }

    /** A read message: the bytes granted on success, as they stand in the window, nothing otherwise. */
    method Read(page: nat, off: nat, n: nat) returns (status: nat, data: Option<seq<byte>>)
      modifies this`sent, this`trace
      ensures status == RSP_SUCCESS <==> data.Some?
      ensures sent == old(sent) + 1 && (old(Honest()) ==> Honest())
      ensures data.Some? <==> replies(old(sent)).Answered? && replies(old(sent)).status == 0
      ensures data.Some? ==> forall i :: 0 <= i < |data.value| ==> data.value[i] == replies(old(sent)).window(i)
      ensures data.Some? ==> |data.value| == (if n > 128 && page < 160 then 128 else n) && trace == old(trace) + [ReadOk(page, off, data.value)]
      ensures data.None? ==> trace == old(trace) + [ReadFailed(page, off)]
    {
      var r := Exchange();
      status, data := RSP_FAIL, None;
      if r.Answered? {
        status := r.status;
        if status == RSP_SUCCESS {
          var window := r.window;
          data := Some(seq(EplChain.Granted(page, n), (i: nat) => window(i)));
        }
      }
      ghost var e := if data.Some? then ReadOk(page, off, data.value) else ReadFailed(page, off);
      if old(Honest()) { MatchesMore(trace, replies, old(sent), e); }
      trace := trace + [e];
    }

    /** A write message; with too little data it raises before it is handed over. */
    method Write(msg: EplChain.Msg) returns (raised: bool, status: nat)
      modifies this`sent, this`trace
      ensures raised <==> |msg.data| < (if msg.PageWrite? && msg.n > 128 && msg.page < 160 then 128 else msg.n)
      ensures sent == (if raised then old(sent) else old(sent) + 1) && (old(Honest()) ==> Honest())
      ensures !raised ==> (status == RSP_SUCCESS <==> replies(old(sent)).Answered? && replies(old(sent)).status == 0)
      ensures trace == if raised then old(trace) else old(trace) + [Wrote(msg, status == RSP_SUCCESS)]
    {
      raised, status := EplChain.Short(msg), RSP_FAIL;
      if raised { return; }
      var r := Exchange();
      status := if r.Answered? then r.status else RSP_FAIL;
      if old(Honest()) { MatchesMore(trace, replies, old(sent), Wrote(msg, status == RSP_SUCCESS)); }
      trace := trace + [Wrote(msg, status == RSP_SUCCESS)];
    }
  }

  /** Whether message i was answered, and with success. */
  predicate Verdict(replies: nat -> Reply, i: nat) {
    replies(i).Answered? && replies(i).status == 0
  }

  /** The verdicts on so many messages, the first of them the one numbered `from`. */
  ghost predicate Verdicts(replies: nat -> Reply, from: nat, oks: seq<bool>) {
    forall i :: 0 <= i < |oks| ==> (oks[i] <==> Verdict(replies, from + i))
  }

  ghost predicate NoFlush(trace: seq<Event>, from: nat) {
    forall i :: from <= i < |trace| ==> !trace[i].Flushed?
  }

  ghost predicate NoHardFlush(trace: seq<Event>, from: nat) {
    forall i :: from <= i < |trace| ==> trace[i] != Flushed(true)
  }

  /** More traffic, but no flush. */
  ghost predicate Grows(t0: seq<Event>, t1: seq<Event>) {
    t0 <= t1 && NoFlush(t1, |t0|)
  }

  /** Event k is a successful read of this page that put byte x at position pos. */
  ghost predicate Delivered(trace: seq<Event>, k: nat, page: nat, pos: nat, x: byte) {
    && k < |trace| && trace[k].ReadOk? && trace[k].page == page
    && trace[k].off <= pos < trace[k].off + |trace[k].data| && trace[k].data[pos - trace[k].off] == x
  }

  /** The upper half of page 0, which a soft flush spares. */
  predicate Sticky(page: nat, pos: nat) {
    page == 0 && pos >= 128
  }

  /**
   The standing of a byte served from cache: a device read delivered it, and since
   then nothing was flushed and the fill it belongs to, the first of the page after
   that read, is younger than the limit; or, for upper page 0, there was no hard flush
   since.
   */
  ghost predicate Vouched(trace: seq<Event>, k: nat, f: nat, page: nat, pos: nat, x: byte, now: int, limit: int) {
    && Delivered(trace, k, page, pos, x)
    && NoHardFlush(trace, k)
    && (!Sticky(page, pos) ==>
          && NoFlush(trace, k) && k < f < |trace|
          && trace[f].Filled? && trace[f].page == page && now - trace[f].ts < limit
          && NoFill(trace, k, f, page))
  }

  /** No fill of this page is completed between the two places. */
  ghost predicate NoFill(trace: seq<Event>, k: nat, f: nat, page: nat)
    requires f <= |trace|
  {
    forall i :: k < i < f ==> !(trace[i].Filled? && trace[i].page == page)
  }

  ghost predicate Served(trace: seq<Event>, page: nat, pos: nat, x: byte, now: int, limit: int) {
    exists k: nat, f: nat :: Vouched(trace, k, f, page, pos, x, now, limit)
  }

  /** After any flush, no byte delivered before it is served, except from upper page 0 after a soft one. */
  lemma NothingOlderServed(trace: seq<Event>, at: nat, page: nat, pos: nat, x: byte, now: int, limit: int)
    requires at < |trace| && trace[at].Flushed? && (trace[at].hard || !Sticky(page, pos))
    requires Served(trace, page, pos, x, now, limit)
    ensures exists k :: at < k < |trace| && Delivered(trace, k, page, pos, x)
  {
    var k: nat, f: nat :| Vouched(trace, k, f, page, pos, x, now, limit);
  }
}

/** One cached page: chassis/sonic_platform/sfp.py, class CachePage, one fill or flush at a time. */
module PageCache {
  import opened Bytes
  import opened Wrappers
  import opened ModuleLink

  class CachePage {
    const pageNum: nat
    const expiration: int
    var data: seq<byte>
    var valid: bool
    var ts: int
    var admin: bool
    // where in the link's trace the cached bytes came from
    ghost var low: nat
    ghost var up: nat
    ghost var fill: nat

    constructor (page: nat, size: nat, expiration: int := 2)
      requires page == 0 ==> size == 256
      ensures pageNum == page && this.expiration == expiration && !valid && !admin
      ensures forall t: seq<Event> :: Backed(t)
    {
      pageNum, this.expiration := page, expiration;
      data, valid, ts, admin := seq(size, _ => 0), false, 0, false;
    }

    /** Every byte the page could serve was delivered by a read, and not flushed since. */
    ghost predicate Backed(trace: seq<Event>)
      reads this
    {
      && (valid ==>
            && low < fill < |trace| && NoFlush(trace, low) && trace[fill] == Filled(pageNum, ts) && NoFill(trace, low, fill, pageNum)
            && if pageNum == 0 then admin && |data| == 256 && trace[low] == ReadOk(0, 0, data[..128])
               else |data| == 128 && trace[low] == ReadOk(pageNum, 128, data))
      && (pageNum == 0 ==> |data| == 256)
      && (pageNum == 0 && admin ==> up < |trace| && NoHardFlush(trace, up) && trace[up] == ReadOk(0, 128, data[128..]))
    }

    predicate LiveAt(now: int)
      reads this
    {
      valid && ts != 0 && now - ts < expiration
    }

    /** cache_page_fresh: an expired page is dropped on the spot. */
    method Fresh(link: Link) returns (live: bool)
      modifies this`valid, link`pace, link`now, link`told
      ensures old(link.now) <= link.now
      ensures live == valid == (old(valid) && ts != 0 && link.now - ts < expiration)
    {
      if valid {
        var t := link.Time();
        if ts != 0 && t - ts < expiration { return true; }
      }
      valid := false;
      return false;
    }

    /** What the page serves was read from the module, and dated by a fresh reading of the clock, since the trace was `before` and the time `start`. */
    ghost predicate FilledSince(before: seq<Event>, start: int, now: int)
      reads this
    {
      valid && |before| <= low < fill && start <= ts <= now
    }

    /** cache_page in its normal mode, with no other fill of the page pending. */
    method Cache(link: Link) returns (ok: bool)
      requires Backed(link.trace) && link.Honest()
      modifies this, link`sent, link`pace, link`now, link`told, link`trace
      ensures Grows(old(link.trace), link.trace) && old(link.now) <= link.now
      ensures Backed(link.trace) && link.Honest()
      ensures ok == valid
      // a live page is left alone, and so is the module; any other is read and dated anew, or the read failed
      ensures old(valid) && old(ts) != 0 && link.now - old(ts) < expiration ==>
                ok && Untouched(old(low), old(up), old(fill), old(ts), old(data)) && link.trace == old(link.trace)
      ensures ok ==> (old(valid) && old(ts) != 0 && link.now - old(ts) < expiration) || FilledSince(old(link.trace), old(link.now), link.now)
      ensures !ok ==> FailedSince(old(link.trace), link.trace, pageNum)
      ensures link.trace == old(link.trace) || AskedAt(link.trace, |old(link.trace)|, pageNum, if pageNum == 0 then 0 else 128)
      // once read, upper page 0 is not read again until a hard flush
      ensures pageNum == 0 && old(admin) ==> admin && data[128..] == old(data[128..]) && up == old(up)
      ensures pageNum == 0 && !old(admin) && admin ==> up >= |old(link.trace)|
    {
      var live := Fresh(link);
      if live { return true; }
      if pageNum == 0 { ok := FillPage0(link); } else { ok := FillUpper(link); }
    }

    ghost predicate Untouched(low0: nat, up0: nat, fill0: nat, ts0: int, data0: seq<byte>)
      reads this
    {
      low == low0 && up == up0 && fill == fill0 && ts == ts0 && data == data0
    }

    /** All that is wanting is the date: the bytes stand where the last read of them put them, with no fill of the page since. */
    ghost predicate Undated(trace: seq<Event>)
      reads this
    {
      && low < |trace| && NoFlush(trace, low) && NoFill(trace, low, |trace|, pageNum)
      && (pageNum == 0 ==> |data| == 256)
      && (pageNum == 0 && admin ==> up < |trace| && NoHardFlush(trace, up) && trace[up] == ReadOk(0, 128, data[128..]))
      && if pageNum == 0 then admin && trace[low] == ReadOk(0, 0, data[..128])
         else |data| == 128 && trace[low] == ReadOk(pageNum, 128, data)
    }

    /** A filled page becomes valid, and is dated by the clock. */
    method Stamp(link: Link)
      requires Undated(link.trace) && link.Honest()
      modifies this`valid, this`ts, this`fill, link`pace, link`now, link`told, link`trace
      ensures Backed(link.trace) && link.Honest() && valid && fill == |old(link.trace)|
      ensures old(link.now) <= ts == link.now && link.told == old(link.told) + 1
      ensures link.trace == old(link.trace) + [Filled(pageNum, ts)]
    {
      valid := true;
      ts := link.Time();
      fill := |link.trace|;
      MatchesMore(link.trace, link.replies, link.sent, Filled(pageNum, ts));
      link.trace := link.trace + [Filled(pageNum, ts)];
    }

    /** The fill of a page other than 0: its upper half. */
    method FillUpper(link: Link) returns (ok: bool)
      requires Backed(link.trace) && link.Honest() && !valid && pageNum != 0
      modifies this, link`sent, link`pace, link`now, link`told, link`trace
      ensures Grows(old(link.trace), link.trace) && old(link.now) <= link.now
      ensures Backed(link.trace) && link.Honest() && ok == valid
      ensures if ok then FilledSince(old(link.trace), old(link.now), link.now) && link.told == old(link.told) + 1
              else FailedSince(old(link.trace), link.trace, pageNum)
      ensures AskedAt(link.trace, |old(link.trace)|, pageNum, 128)
    {
      var status, d := link.Read(pageNum, CHUNK, CHUNK);
      if d.None? { return false; }
      low := |link.trace| - 1;
      data := d.value;
      Stamp(link);
      return true;
    }

    /** The lower half of page 0. */
    method ReadLower(link: Link) returns (got: bool)
      requires Backed(link.trace) && link.Honest() && !valid && pageNum == 0
      modifies this`data, this`low, link`sent, link`trace
      ensures Grows(old(link.trace), link.trace) && Backed(link.trace) && link.Honest()
      ensures |link.trace| == |old(link.trace)| + 1 && AskedAt(link.trace, |old(link.trace)|, 0, 0)
      ensures data[128..] == old(data[128..])
      ensures if got then low == |old(link.trace)| && link.trace[low] == ReadOk(0, 0, data[..128])
              else FailedSince(old(link.trace), link.trace, 0)
    {
      var status, d := link.Read(0, 0, CHUNK);
      if d.None? { return false; }
      var upper := data[128..];
      data := d.value + upper;
      low := |link.trace| - 1;
      assert data[..128] == d.value && data[128..] == upper;
      return true;
    }

    /** The fill of page 0: the lower half always, the upper half only if it is not already there. */
    method FillPage0(link: Link) returns (ok: bool)
      requires Backed(link.trace) && link.Honest() && !valid && pageNum == 0
      modifies this, link`sent, link`pace, link`now, link`told, link`trace
      ensures Grows(old(link.trace), link.trace) && old(link.now) <= link.now
      ensures Backed(link.trace) && link.Honest() && ok == valid
      ensures if ok then FilledSince(old(link.trace), old(link.now), link.now) && link.told == old(link.told) + 1
              else FailedSince(old(link.trace), link.trace, 0)
      ensures AskedAt(link.trace, |old(link.trace)|, 0, 0)
      ensures old(admin) ==> admin && data[128..] == old(data[128..]) && up == old(up)
      ensures !old(admin) && admin ==> up >= |old(link.trace)|
    {
      var lower := ReadLower(link);
      if !lower { return false; }
      if !admin {
        var got := ReadAdmin(link);
        if !got { return false; }
      }
      Stamp(link);
      return true;
    }

    /** The administrative half of page 0, read once per hard flush. */
    method ReadAdmin(link: Link) returns (got: bool)
      requires Backed(link.trace) && link.Honest() && !valid && !admin && pageNum == 0
      modifies this`data, this`admin, this`up, link`sent, link`trace
      ensures Grows(old(link.trace), link.trace) && Backed(link.trace) && link.Honest()
      ensures |link.trace| == |old(link.trace)| + 1 && (!got ==> link.trace[|old(link.trace)|].ReadFailed? && link.trace[|old(link.trace)|].page == 0)
      ensures !link.trace[|old(link.trace)|].Filled?
      ensures got == admin && data[..128] == old(data[..128])
      ensures admin ==> up >= |old(link.trace)|
    {
      var status, d := link.Read(0, CHUNK, CHUNK);
      if d.None? { return false; }
      var lower := data[..128];
      data := lower + d.value;
      admin := true;
      up := |link.trace| - 1;
      assert data[..128] == lower && data[128..] == d.value;
      return true;
    }

    /** page_flush: the hard flush. */
    method Flush()
      modifies this`valid, this`admin
      ensures !valid && admin == (if pageNum == 0 then false else old(admin))
    {
      if pageNum == 0 { admin := false; }
      valid := false;
    }
  }

  /** At this place of the trace the module was asked for bytes of this page from this position on. */
  ghost predicate AskedAt(trace: seq<Event>, k: nat, page: nat, off: nat) {
    k < |trace| && (trace[k].ReadOk? || trace[k].ReadFailed?) && trace[k].page == page && trace[k].off == off
  }

  /** The last thing that happened since the trace was `before` is a failed read of this page. */
  ghost predicate FailedSince(before: seq<Event>, now: seq<Event>, page: nat) {
    |before| < |now| && now[|now| - 1].ReadFailed? && now[|now| - 1].page == page
  }

  /** What backs a page goes on backing it while there is traffic but no flush. */
  lemma BackedGrows(p: CachePage, t0: seq<Event>, t1: seq<Event>)
    requires p.Backed(t0) && Grows(t0, t1)
    ensures p.Backed(t1)
  {
  }
}

/** The transceiver object: chassis/sonic_platform/sfp.py, class Sfp. */
module ChassisSfp {
  import opened Bytes
  import opened Wrappers
  import opened ModuleLink
  import opened PageCache
  import E = EplChain

  const PAGES: nat := 256

  datatype ReadResult = Bytes(data: seq<byte>) | NoData | NoSuchPage

  /** The linear offset: 0..255 is page 0, and from there on 128 bytes a page. */
  function PageOf(offset: nat): nat {
    if offset <= 255 then 0 else offset / 128 - 1
  }

  function OffOf(offset: nat): nat {
    if offset <= 255 then offset else offset % 128 + 128
  }

  /** Pages the cache never fills: fast-changing diagnostics, and everything from the CDB page on. */
  predicate NeverCached(page: nat) {
    page == 3 || page == 5 || 16 <= page <= 18 || page == 23 || page == 44 || page >= 159
  }

  /** The linear offset splits into a real position: every byte of the module has one offset, bar the overlap at 128..255 of page 0. */
  lemma OffsetSplits(offset: nat)
    ensures var p, o := PageOf(offset), OffOf(offset);
            && o < 256 && (p > 0 ==> o >= 128)
            && offset == (if p == 0 then o else p * 128 + o)
  {
  }

  class Sfp {
    const link: Link
    const pages: seq<CachePage>
    var cacheOverrideDisable: bool
    var writeCache: seq<byte>
    var lastWritePage: nat
    var cdbChainPending: bool
    var cdbChainStamp: int

    /** The write-combining state as one value. */
    ghost function Chain(): E.Chain
      reads this
    {
      E.Chain(writeCache, lastWritePage, cdbChainPending, cdbChainStamp)
    }

    ghost predicate PagesOk()
      reads this, link, pages
    {
      && |pages| == PAGES
      && (forall i, j :: 0 <= i < j < PAGES ==> pages[i] != pages[j])
      && (forall i :: 0 <= i < PAGES ==> pages[i].pageNum == i && pages[i].Backed(link.trace))
      && (forall i :: 0 <= i < PAGES && NeverCached(i) ==> !pages[i].valid)
    }

    ghost predicate Valid()
      reads this, link, pages
    {
      PagesOk() && link.Honest() && E.Linked(Chain())
    }

    /** 256 pages of their own, page 0 of 256 bytes and the others of 128, and an empty buffer. */
    constructor (link: Link)
      requires link.Honest()
      ensures this.link == link && Valid() && E.Valid(Chain()) && !cdbChainPending
      ensures fresh(pages) && forall i :: 0 <= i < PAGES ==> !pages[i].valid && !pages[i].admin && pages[i].expiration == 2
    {
      var made: seq<CachePage> := [];
      for i := 0 to PAGES
        invariant |made| == i && (forall j :: 0 <= j < i ==> fresh(made[j]))
        invariant forall j, k :: 0 <= j < k < i ==> made[j] != made[k]
        invariant forall j :: 0 <= j < i ==> made[j].pageNum == j && !made[j].valid && !made[j].admin && made[j].expiration == 2
        invariant forall j, t: seq<Event> :: 0 <= j < i ==> made[j].Backed(t)
      {
        var page := new CachePage(i, if i == 0 then 256 else 128);
        made := made + [page];
      }
      this.link, pages := link, made;
      cacheOverrideDisable := true;
      writeCache, lastWritePage, cdbChainPending, cdbChainStamp := seq(E.EPL_SIZE, _ => 0), 0, false, 0;
    }

    /** Some page changed on its own, backed by the longer trace; all the others are as they were. */
    twostate lemma OnePageMoved(page: nat)
      requires old(PagesOk()) && |pages| == PAGES && page < PAGES
      requires forall i :: 0 <= i < PAGES && i != page ==> unchanged(pages[i])
      requires Grows(old(link.trace), link.trace)
      requires pages[page].Backed(link.trace) && (NeverCached(page) ==> !pages[page].valid)
      ensures PagesOk()
    {
      forall i | 0 <= i < PAGES
        ensures pages[i].Backed(link.trace)
      {
        if i != page {
          assert old(pages[i].Backed(link.trace));
          BackedGrows(pages[i], old(link.trace), link.trace);
        }
      }
    }

    /** Upper page 0, if it was held, is as it was; if it is held since, it was read since. */
    twostate predicate UpperStays()
      requires old(PagesOk()) && PagesOk()
      reads this, link, pages
    {
      if old(pages[0].admin) then pages[0].admin && pages[0].data[128..] == old(pages[0].data[128..]) && pages[0].up == old(pages[0].up)
      else pages[0].admin ==> pages[0].up >= |old(link.trace)|
    }

    /**
     What is held of upper page 0 was read from position `from` of the trace on; or,
     if it was held there already and no hard flush has come since, it is what it was.
     */
    ghost predicate UpperFrom(from: nat, was: bool, half: seq<byte>)
      requires |pages| == PAGES
      reads link, pages[0]
    {
      if was && NoHardFlush(link.trace, from) then pages[0].admin && |pages[0].data| == 256 && pages[0].data[128..] == half
      else pages[0].admin ==> pages[0].up >= from
    }

    /** What is never read into the cache: some pages, and on page 0 a stretch of the lower half. */
    predicate Uncached(page: nat, off: nat, n: nat) {
      page in {3, 5, 16, 17, 18, 23, 44} || page >= 159 || (page == 0 && off >= 3 && off + n <= 128)
    }

    /** The page was valid before, and would not have expired at this time. */
    twostate predicate WasLive(page: nat, now: int)
      requires page < |pages|
      reads this, pages
    {
      old(pages[page].LiveAt(now))
    }

    /** If the page is still live, it is as it was, and the module was not asked. */
    twostate predicate Kept(page: nat)
      requires page < |pages|
      reads this, link, pages
    {
      WasLive(page, link.now) ==>
        && pages[page].valid && pages[page].ts == old(pages[page].ts) && pages[page].data == old(pages[page].data)
        && link.trace == old(link.trace)
    }

    /** If it was not live, the module was asked for it, and what it serves was read and dated in this call. */
    twostate predicate Refilled(page: nat)
      requires page < |pages|
      reads this, link, pages
    {
      && (pages[page].valid ==> WasLive(page, link.now) || pages[page].FilledSince(old(link.trace), old(link.now), link.now))
      && (!WasLive(page, old(link.now)) ==> AskedAt(link.trace, |old(link.trace)|, page, if page == 0 then 0 else 128))
    }

    /** smart_cache: refresh the page unless it is one that is never cached. */
    method SmartCache(page: nat, off: nat, n: nat)
      requires Valid()
      modifies link`sent, link`pace, link`now, link`told, link`trace, pages
      ensures Valid() && Grows(old(link.trace), link.trace) && old(link.now) <= link.now
      ensures UpperStays()
      ensures Uncached(page, off, n) ==> link.trace == old(link.trace) && link.now == old(link.now) && forall i :: 0 <= i < PAGES ==> unchanged(pages[i])
      ensures page < PAGES ==> Kept(page) && (!Uncached(page, off, n) ==> Refilled(page))
    {
      if page < PAGES {
        if (page == 0 && off > 2 && off + n < 129) || NeverCached(page) { return; }
        var _ := pages[page].Cache(link);
        OnePageMoved(page);
      }
    }

    method GetCachedPage(page: nat) returns (data: Option<seq<byte>>)
      requires Valid() && page < PAGES
      modifies link`pace, link`now, link`told, pages
      ensures Valid() && old(link.now) <= link.now
      ensures pages[0].admin == old(pages[0].admin) && pages[0].data == old(pages[0].data) && pages[0].up == old(pages[0].up)
      ensures data.Some? <==> pages[page].valid
      ensures data.Some? ==> data.value == pages[page].data && link.now - pages[page].ts < pages[page].expiration
      ensures pages[page].valid == WasLive(page, link.now) && pages[page].ts == old(pages[page].ts) && pages[page].data == old(pages[page].data)
      ensures pages[page].low == old(pages[page].low) && pages[page].fill == old(pages[page].fill)
    {
      var live := pages[page].Fresh(link);
      OnePageMoved(page);
      data := if live then Some(pages[page].data) else None;
    }

    /** override_cache: positions that are never taken from cache, when overriding is on. */
    predicate OverrideCache(page: nat, off: nat) {
      (page == 0 && 3 <= off <= 84) || (page == 17 && off == 128)
    }

    /** The bytes come straight from the module, by a read that is the last thing to have happened. */
    ghost predicate Direct(page: nat, off: nat, n: nat, data: seq<byte>)
      reads link
    {
      |link.trace| > 0 && link.trace[|link.trace| - 1] == ReadOk(page, off, data) && |data| == (if n > 128 && page < 160 then 128 else n)
    }

    /** The bytes come from cache: as many as were asked for and the page holds, each in its place and vouched for. */
    ghost predicate FromCache(page: nat, off: nat, n: nat, data: seq<byte>)
      requires page < |pages|
      reads link, pages[page]
    {
      && !NeverCached(page)
      && |data| == (if off + n <= 256 then n else 256 - off)
      && (page == 0 ==> pages[0].admin)
      && (var at := if page == 0 then off else off - 128;
          0 <= at && at + |data| <= |pages[page].data| && data == pages[page].data[at..at + |data|])
      && forall i :: 0 <= i < |data| ==> Served(link.trace, page, off + i, data[i], link.now, pages[page].expiration)
    }

    /** The positions of which that is so while overriding is on. */
    predicate Overridden(page: nat, off: nat)
      reads this
    {
      !cacheOverrideDisable && ((page == 0 && 3 <= off <= 84) || (page == 17 && off == 128))
    }

    /** smart_cache, get_cached_page and override_cache, one after the other. */
    method Cached(page: nat, off: nat, n: nat) returns (cached: Option<seq<byte>>)
      requires Valid() && page < PAGES
      modifies link`sent, link`pace, link`now, link`told, link`trace, pages
      ensures Valid() && Grows(old(link.trace), link.trace) && old(link.now) <= link.now
      ensures UpperStays() && Kept(page) && (!Uncached(page, off, n) ==> Refilled(page))
      ensures Uncached(page, off, n) ==> link.trace == old(link.trace) && (pages[page].valid ==> WasLive(page, link.now))
      ensures cached.Some? <==> pages[page].valid && !Overridden(page, off)
      ensures cached.Some? ==> cached.value == pages[page].data && link.now - pages[page].ts < pages[page].expiration
    {
      SmartCache(page, off, n);
      cached := GetCachedPage(page);
      if cached.Some? && !cacheOverrideDisable && OverrideCache(page, off) {
        cached := None;
      }
    }

    /** A read message of its own, which moves no page. */
    method ReadModule(page: nat, off: nat, n: nat) returns (r: ReadResult)
      requires Valid()
      modifies link`sent, link`trace
      ensures Valid() && Grows(old(link.trace), link.trace) && !r.NoSuchPage?
      ensures |link.trace| == |old(link.trace)| + 1 && AskedAt(link.trace, |old(link.trace)|, page, off)
      ensures r.Bytes? ==> Direct(page, off, n, r.data)
      ensures r.NoData? ==> link.trace[|link.trace| - 1] == ReadFailed(page, off)
    {
      var status, d := link.Read(page, off, n);
      NoPageMoved();
      r := if d.None? then NoData else Bytes(d.value);
    }

    /**
     Where a read goes.  A live page answers it without the module being asked.  If
     the page was not live, one that is cached is read first, and one that is not is
     left to the read itself.  An overridden position is always read.
     */
    twostate predicate FromTheRightPlace(page: nat, off: nat, n: nat, r: ReadResult)
      requires page < |pages|
      reads this, link, pages
    {
      var live, was, trace, k := WasLive(page, link.now), WasLive(page, old(link.now)), link.trace, |old(link.trace)|;
      && (live && !Overridden(page, off) ==> trace == old(link.trace) && r.Bytes? && FromCache(page, off, n, r.data) && pages[page].data == old(pages[page].data))
      && (Overridden(page, off) ==> k < |trace| && AskedAt(trace, |trace| - 1, page, off))
      && (!was && Uncached(page, off, n) ==> |trace| == k + 1 && AskedAt(trace, k, page, off))
      && (!was && !Uncached(page, off, n) ==> AskedAt(trace, k, page, if page == 0 then 0 else 128))
      && (r.Bytes? && !Uncached(page, off, n) ==>
            live || pages[page].FilledSince(old(link.trace), old(link.now), link.now) || (k < |trace| && AskedAt(trace, |trace| - 1, page, off)))
    }

    method ReadEeprom(offset: nat, n: nat) returns (r: ReadResult)
      requires Valid()
      modifies link`sent, link`pace, link`now, link`told, link`trace, pages
      ensures Valid() && Grows(old(link.trace), link.trace) && old(link.now) <= link.now
      ensures UpperStays()
      ensures n == 0 ==> r == Bytes([])
      ensures n > 0 ==> (r.NoSuchPage? <==> PageOf(offset) >= PAGES)
      ensures n > 0 && r.Bytes? ==>
                Direct(PageOf(offset), OffOf(offset), n, r.data) || FromCache(PageOf(offset), OffOf(offset), n, r.data)
      ensures r.NoData? ==> |link.trace| > 0 && link.trace[|link.trace| - 1] == ReadFailed(PageOf(offset), OffOf(offset))
      ensures n > 0 && PageOf(offset) < PAGES ==> FromTheRightPlace(PageOf(offset), OffOf(offset), n, r)
    {
      var page, off := PageOf(offset), OffOf(offset);
      if n == 0 { return Bytes([]); }
      if page >= PAGES { return NoSuchPage; }
      var cached := Cached(page, off, n);
      if cached.None? {
        r := ReadModule(page, off, n);
        return;
      }
      var at := if page == 0 then off else off - 128;
      var most := if page == 0 then 256 else 128;
      var take := if at + n > most then most - at else n;
      r := Bytes(cached.value[at..at + take]);
      assert pages[page].Backed(link.trace);
      SliceIsServed(page, off, n, r.data);
    }

    /** Every byte of a live cached page is vouched for. */
    lemma ByteIsServed(page: nat, pos: nat)
      requires PagesOk() && page < PAGES && pages[page].valid && link.now - pages[page].ts < pages[page].expiration
      requires pos < 256 && (page > 0 ==> pos >= 128)
      ensures var p := pages[page];
              Served(link.trace, page, pos, p.data[if page == 0 then pos else pos - 128], link.now, p.expiration)
    {
      var p := pages[page];
      var k := if Sticky(page, pos) then p.up else p.low;
      assert p.Backed(link.trace);
      assert Vouched(link.trace, k, p.fill, page, pos, p.data[if page == 0 then pos else pos - 128], link.now, p.expiration);
    }

    /** So is every byte of a slice of it. */
    lemma SliceIsServed(page: nat, off: nat, n: nat, data: seq<byte>)
      requires PagesOk() && page < PAGES && pages[page].valid && link.now - pages[page].ts < pages[page].expiration
      requires off < 256 && (page > 0 ==> off >= 128)
      requires var at := if page == 0 then off else off - 128;
               var take := if off + n <= 256 then n else 256 - off;
               at + take <= |pages[page].data| && data == pages[page].data[at..at + take]
      ensures FromCache(page, off, n, data)
    {
      assert pages[page].Backed(link.trace);
      forall i | 0 <= i < |data|
        ensures Served(link.trace, page, off + i, data[i], link.now, pages[page].expiration)
      {
        ByteIsServed(page, off + i);
      }
    }

    /** Traffic alone moves no page. */
    twostate lemma NoPageMoved()
      requires old(PagesOk())
      requires forall i :: 0 <= i < |pages| ==> unchanged(pages[i])
      requires Grows(old(link.trace), link.trace)
      ensures PagesOk()
    {
      forall i | 0 <= i < PAGES
        ensures pages[i].Backed(link.trace)
      {
        assert old(pages[i].Backed(link.trace));
        BackedGrows(pages[i], old(link.trace), link.trace);
      }
    }

    /** page_cache_flush over all pages. */
    method PageCacheFlush(hard: bool)
      requires Valid()
      modifies link`trace, pages
      ensures Valid()
      ensures link.trace == old(link.trace) + [Flushed(hard)]
      ensures forall i :: 0 <= i < PAGES ==> !pages[i].valid
      // a soft flush spares the upper half of page 0
      ensures pages[0].admin == (old(pages[0].admin) && !hard) && pages[0].data == old(pages[0].data) && pages[0].up == old(pages[0].up)
    {
      ghost var t0 := link.trace;
      ghost var t1 := t0 + [Flushed(hard)];
      for i := 0 to PAGES
        invariant forall j :: i <= j < PAGES ==> unchanged(pages[j])
        invariant forall j :: 0 <= j < i ==> !pages[j].valid && pages[j].Backed(t1)
        invariant i > 0 ==> pages[0].admin == (old(pages[0].admin) && !hard)
        invariant pages[0].data == old(pages[0].data) && pages[0].up == old(pages[0].up)
      {
        assert old(pages[i].Backed(link.trace));
        if hard { pages[i].Flush(); } else { pages[i].valid := false; }
        assert pages[i].Backed(t1);
      }
      MatchesMore(t0, link.replies, link.sent, Flushed(hard));
      link.trace := t1;
    }

    /** page_cache_flush of one page; for a number that is no page's it ends the process or raises. */
    method FlushPage(hard: bool, page: int) returns (failed: bool)
      requires Valid() && page != -1
      modifies pages
      ensures Valid()
      ensures failed <==> !(0 <= page < PAGES)
      ensures forall i :: 0 <= i < PAGES && i != page ==> unchanged(pages[i])
      ensures !failed ==> !pages[page].valid && pages[page].admin == (old(pages[page].admin) && !(hard && page == 0))
    {
      if !(0 <= page < PAGES) { return true; }
      assert pages[page].Backed(link.trace);
      if hard { pages[page].Flush(); } else { pages[page].valid := false; }
      OnePageMoved(page);
      return false;
    }

    /** SfpHasBeenTransitioned, the part that concerns this object's cache: a hot swap flushes hard. */
    method HasBeenTransitioned()
      requires Valid()
      modifies link`trace, pages
      ensures Valid() && link.trace == old(link.trace) + [Flushed(true)] && !pages[0].admin
    {
      PageCacheFlush(true);
    }

    /** The buffer argument as a Python slice assignment takes it. */
    method Collect(at: nat, n: nat, buf: seq<byte>)
      modifies this`writeCache
      ensures writeCache == E.SliceAssign(old(writeCache), at, at + n, buf)
    {
      var lo := E.Min(at, |writeCache|);
      var hi := E.Min(at + n, |writeCache|);
      writeCache := writeCache[..lo] + buf + writeCache[hi..];
    }

    method ForgetChain()
      modifies this`lastWritePage, this`cdbChainPending, this`cdbChainStamp
      ensures Chain() == E.Reset(old(Chain()))
    {
      cdbChainPending, lastWritePage, cdbChainStamp := false, 0, 0;
    }

    /** Lines 1027-1054: a page that is collected, and perhaps completes its chain. */
    method CollectPage(page: nat, off: nat, n: nat, buf: seq<byte>) returns (ok: bool, raised: bool, ghost c: E.Call, ghost oks: seq<bool>)
      requires Valid() && E.Accepted(Chain(), E.Call(page, off, n, buf, 0))
      modifies this`writeCache, this`lastWritePage, this`cdbChainPending, this`cdbChainStamp
      modifies link`sent, link`pace, link`mono, link`asked, link`trace
      ensures Valid() && old(link.mono) <= link.mono
      ensures c == E.Call(page, off, n, buf, link.mono) && Chain() == E.Next(old(Chain()), c)
      ensures Outcome(old(Chain()), c, ok, raised, oks) && !PlainLast(E.Msgs(old(Chain()), c))
      ensures link.trace == old(link.trace) + Sends(E.Msgs(old(Chain()), c), oks)
      ensures link.sent == old(link.sent) + |oks| && Verdicts(link.replies, old(link.sent), oks)
      ensures link.asked == old(link.asked) + if cdbChainPending then 1 else 0
    {
      ghost var ch := Chain();
      var at := (page - E.EPL_FIRST) * E.PAGE;
      Collect(at, n, buf);
      if n < E.PAGE || page == E.EPL_LAST {
        ForgetChain();
        c := E.Call(page, off, n, buf, link.mono);
        var status;
        raised, status := link.Write(E.ChainWrite(at + n, writeCache));
        ok, oks := !raised && status == RSP_SUCCESS, if raised then [] else [status == RSP_SUCCESS];
        OneMessage(ch, c, E.ChainWrite(at + n, writeCache), raised, status == RSP_SUCCESS);
      } else {
        cdbChainPending := true;
        lastWritePage := page;
        cdbChainStamp := link.Monotonic();
        c := E.Call(page, off, n, buf, link.mono);
        ok, raised, oks := true, false, [];
      }
      E.NextLinked(ch, c);
      NoPageMoved();
    }

    /** Lines 1056-1076: what any other call does to a pending chain before its own write. */
    method SettleChain(page: nat, off: nat, n: nat, buf: seq<byte>) returns (raised: bool, ghost c: E.Call, ghost ms: seq<E.Msg>, ghost oks: seq<bool>)
      requires Valid() && !E.Accepted(Chain(), E.Call(page, off, n, buf, 0))
      modifies this`lastWritePage, this`cdbChainPending, this`cdbChainStamp
      modifies link`sent, link`pace, link`mono, link`asked, link`trace
      ensures Valid() && old(link.mono) <= link.mono
      ensures c == E.Call(page, off, n, buf, link.mono)
      ensures Chain() == E.After(old(Chain()), c)
      ensures E.Msgs(old(Chain()), c) == ms + [E.PageWrite(page, off, n, buf)]
      ensures raised <==> ms != [] && E.Short(ms[0])
      ensures |oks| == (if raised then 0 else |ms|) && |ms| <= 1
      ensures link.trace == old(link.trace) + Sends(ms, oks)
      ensures link.sent == old(link.sent) + |oks| && Verdicts(link.replies, old(link.sent), oks)
      ensures link.asked == old(link.asked) + if old(cdbChainPending) && page != 159 then 1 else 0
    {
      ghost var ch := Chain();
      raised, ms, oks := false, [], [];
      if cdbChainPending {
        if page != E.CDB_PAGE {
          var now := link.Monotonic();
          if now - cdbChainStamp > E.STALE_US || E.InEpl(page) { ForgetChain(); }
        } else {
          var msg := E.ChainWrite((lastWritePage - E.EPL_FIRST) * E.PAGE + E.PAGE, writeCache);
          var status;
          raised, status := link.Write(msg);
          ms := [msg];
          if !raised {
            oks := [status == RSP_SUCCESS];
            ForgetChain();
          }
        }
      }
      c := E.Call(page, off, n, buf, link.mono);
      E.NextLinked(ch, c);
      NoPageMoved();
    }

    /** Lines 1078-1093: the write message itself, and the soft flush if it succeeds. */
    method PlainWrite(page: nat, off: nat, n: nat, buf: seq<byte>) returns (ok: bool, raised: bool)
      requires Valid()
      modifies link`sent, link`trace, pages
      ensures Valid()
      ensures raised <==> E.Short(E.PageWrite(page, off, n, buf))
      ensures link.trace == old(link.trace) + (if raised then [] else [Wrote(E.PageWrite(page, off, n, buf), ok)])
                              + (if ok then [Flushed(false)] else [])
      ensures raised ==> !ok
      ensures link.sent == old(link.sent) + (if raised then 0 else 1)
      ensures !raised ==> ok == Verdict(link.replies, old(link.sent))
      ensures pages[0].admin == old(pages[0].admin) && pages[0].data == old(pages[0].data) && pages[0].up == old(pages[0].up)
    {
      var status;
      raised, status := link.Write(E.PageWrite(page, off, n, buf));
      NoPageMoved();
      ok := !raised && status == RSP_SUCCESS;
      if ok { PageCacheFlush(false); }
    }

    /** Lines 1056-1093: a page that is not collected. */
    method WritePage(page: nat, off: nat, n: nat, buf: seq<byte>) returns (ok: bool, raised: bool, ghost c: E.Call, ghost oks: seq<bool>)
      requires Valid() && !E.Accepted(Chain(), E.Call(page, off, n, buf, 0))
      modifies this`lastWritePage, this`cdbChainPending, this`cdbChainStamp
      modifies link`sent, link`pace, link`mono, link`asked, link`trace, pages
      ensures Valid() && old(link.mono) <= link.mono
      ensures c == E.Call(page, off, n, buf, link.mono)
      ensures Chain() == E.After(old(Chain()), c)
      ensures Outcome(old(Chain()), c, ok, raised, oks)
      ensures link.sent == old(link.sent) + |oks| && Verdicts(link.replies, old(link.sent), oks)
      ensures link.asked == old(link.asked) + if old(cdbChainPending) && page != 159 then 1 else 0
      ensures Logged(old(link.trace), link.trace, E.Msgs(old(Chain()), c), oks, ok)
      ensures pages[0].admin == old(pages[0].admin) && pages[0].data == old(pages[0].data) && pages[0].up == old(pages[0].up)
    {
      ghost var ms;
      raised, c, ms, oks := SettleChain(page, off, n, buf);
      HandedInTurn(ms, E.PageWrite(page, off, n, buf));
      if raised { ok := false; return; }
      ghost var settled := link.trace;
      ok, raised := PlainWrite(page, off, n, buf);
      LoggedMore(old(link.trace), settled, link.trace, ms, oks, E.PageWrite(page, off, n, buf), ok, raised);
      oks := if raised then oks else oks + [ok];
    }

    /**
     write_eeprom.  `c` is the call with its offset split, stamped with the clock;
     `oks` says which of its messages succeeded, up to the first that raises for want
     of data: those that the peer answered in time with status 0.  The result is that
     of the last message alone.  A successful plain write, and nothing else, flushes
     softly.  Where the time of the call matters, the clock is read in the call.
     */
    method WriteEeprom(offset: nat, n: nat, buf: seq<byte>) returns (ok: bool, raised: bool, ghost c: E.Call, ghost oks: seq<bool>)
      requires Valid()
      modifies this`writeCache, this`lastWritePage, this`cdbChainPending, this`cdbChainStamp
      modifies link`sent, link`pace, link`mono, link`asked, link`trace, pages
      ensures Valid() && old(link.mono) <= link.mono
      ensures c == E.Call(PageOf(offset), OffOf(offset), n, buf, link.mono)
      ensures Chain() == E.After(old(Chain()), c)
      ensures Outcome(old(Chain()), c, ok, raised, oks)
      ensures link.sent == old(link.sent) + |oks| && Verdicts(link.replies, old(link.sent), oks)
      ensures link.asked == old(link.asked) + if ReadsClock(old(Chain()), Chain(), c) then 1 else 0
      ensures Logged(old(link.trace), link.trace, E.Msgs(old(Chain()), c), oks, ok)
      ensures pages[0].admin == old(pages[0].admin) && pages[0].data == old(pages[0].data) && pages[0].up == old(pages[0].up)
    {
      var page, off := PageOf(offset), OffOf(offset);
      if (page == E.EPL_FIRST && n == E.PAGE) || (E.EPL_FIRST < page <= E.EPL_LAST && n <= E.PAGE && off == 128) {
        if page == E.EPL_FIRST || page == lastWritePage + 1 {
          ok, raised, c, oks := CollectPage(page, off, n, buf);
          return;
        }
      }
      ok, raised, c, oks := WritePage(page, off, n, buf);
    }
  }

  /** Which messages of a call are handed over, and what the call returns: the last one's outcome, unless one raises. */
  ghost predicate Outcome(ch: E.Chain, c: E.Call, ok: bool, raised: bool, oks: seq<bool>) {
    && (raised <==> E.Raises(ch, c)) && |oks| == E.Handed(E.Msgs(ch, c))
    && ok == (!raised && (oks == [] || oks[|oks| - 1]))
  }

  /** The stamp of an accepted page, and the age of a pending chain, are taken with a fresh reading of the clock. */
  ghost predicate ReadsClock(before: E.Chain, after: E.Chain, c: E.Call) {
    if E.Accepted(before, c) then after.pending else before.pending && c.page != 159
  }

  /** What one call adds to the trace. */
  ghost predicate Logged(t0: seq<Event>, t1: seq<Event>, ms: seq<E.Msg>, oks: seq<bool>, ok: bool) {
    |oks| <= |ms| && t1 == t0 + Sends(ms, oks) + (if PlainLast(ms) && ok then [Flushed(false)] else [])
  }

  lemma LoggedMore(t0: seq<Event>, t: seq<Event>, t1: seq<Event>, ms: seq<E.Msg>, oks: seq<bool>, last: E.Msg, ok: bool, raised: bool)
    requires |oks| == |ms| && t == t0 + Sends(ms, oks) && last.PageWrite? && (raised ==> !ok)
    requires t1 == t + (if raised then [] else [Wrote(last, ok)]) + (if ok then [Flushed(false)] else [])
    ensures Logged(t0, t1, ms + [last], if raised then oks else oks + [ok], ok)
  {
    SendsMore(ms, oks, last, ok);
  }

  lemma OneMessage(ch: E.Chain, c: E.Call, m: E.Msg, raised: bool, good: bool)
    requires E.Msgs(ch, c) == [m] && (raised <==> E.Short(m))
    ensures Outcome(ch, c, !raised && good, raised, if raised then [] else [good])
    ensures Sends([m], if raised then [] else [good]) == if raised then [] else [Wrote(m, good)]
  {
    assert [m][1..] == [];
  }

  lemma HandedInTurn(ms: seq<E.Msg>, last: E.Msg)
    requires |ms| <= 1
    ensures E.Handed(ms + [last]) == if ms != [] && E.Short(ms[0]) then 0 else if E.Short(last) then |ms| else |ms| + 1
  {
    assert [last][1..] == [];
    if ms != [] { assert (ms + [last])[1..] == [last]; }
  }

  /** Some read after position `from` of the trace delivered this byte. */
  ghost predicate DeliveredSince(trace: seq<Event>, from: nat, page: nat, pos: nat, x: byte) {
    exists k: nat :: from <= k && Delivered(trace, k, page, pos, x)
  }

  /** What may happen to an object between two calls of interest. */
  datatype Use = Reading(offset: nat, n: nat) | Writing(offset: nat, n: nat, buf: seq<byte>) | Swapping

  /** Any calls, in any order; `from`, `was` and `half` say what was held of upper page 0 at some earlier time. */
  method Apply(sfp: Sfp, uses: seq<Use>, ghost from: nat, ghost was: bool, ghost half: seq<byte>)
    requires sfp.Valid() && from <= |sfp.link.trace| && sfp.UpperFrom(from, was, half)
    modifies sfp`writeCache, sfp`lastWritePage, sfp`cdbChainPending, sfp`cdbChainStamp
    modifies sfp.link`sent, sfp.link`pace, sfp.link`now, sfp.link`told, sfp.link`mono, sfp.link`asked, sfp.link`trace, sfp.pages
    ensures sfp.Valid() && old(sfp.link.trace) <= sfp.link.trace && sfp.UpperFrom(from, was, half)
  {
    for i := 0 to |uses|
      invariant sfp.Valid() && old(sfp.link.trace) <= sfp.link.trace && sfp.UpperFrom(from, was, half)
    {
      UseOnce(sfp, uses[i], from, was, half);
    }
  }

  method UseOnce(sfp: Sfp, use: Use, ghost from: nat, ghost was: bool, ghost half: seq<byte>)
    requires sfp.Valid() && from <= |sfp.link.trace| && sfp.UpperFrom(from, was, half)
    modifies sfp`writeCache, sfp`lastWritePage, sfp`cdbChainPending, sfp`cdbChainStamp
    modifies sfp.link`sent, sfp.link`pace, sfp.link`now, sfp.link`told, sfp.link`mono, sfp.link`asked, sfp.link`trace, sfp.pages
    ensures sfp.Valid() && old(sfp.link.trace) <= sfp.link.trace && sfp.UpperFrom(from, was, half)
  {
    assert sfp.pages[0].Backed(sfp.link.trace);
    match use {
      case Reading(offset, n) =>
        var _ := sfp.ReadEeprom(offset, n);
        assert sfp.pages[0].Backed(sfp.link.trace);
      case Writing(offset, n, buf) => var _, _, _, _ := sfp.WriteEeprom(offset, n, buf);
      case Swapping =>
        sfp.HasBeenTransitioned();
        assert sfp.link.trace[|sfp.link.trace| - 1] == Flushed(true);
    }
  }

  /** Every byte of a read's result was delivered by the module after position `from` of the trace; with `soft`, but for upper page 0. */
  ghost predicate ReadSince(trace: seq<Event>, from: nat, soft: bool, at: nat, r: ReadResult) {
    r.Bytes? ==>
      forall i {:trigger r.data[i]} :: 0 <= i < |r.data| && !(soft && Sticky(PageOf(at), OffOf(at) + i)) ==>
        DeliveredSince(trace, from, PageOf(at), OffOf(at) + i, r.data[i])
  }

  /** What a read has just returned was delivered after any flush there has been, with what a soft one spares set aside. */
  lemma FreshAfterFlush(sfp: Sfp, flushed: seq<Event>, at: nat, m: nat, r: ReadResult)
    requires sfp.PagesOk() && flushed != [] && flushed[|flushed| - 1].Flushed? && flushed <= sfp.link.trace
    requires r.Bytes? && r.data != [] ==>
               PageOf(at) < PAGES && (sfp.Direct(PageOf(at), OffOf(at), m, r.data) || sfp.FromCache(PageOf(at), OffOf(at), m, r.data))
    ensures ReadSince(sfp.link.trace, |flushed|, !flushed[|flushed| - 1].hard, at, r)
  {
    var trace, page := sfp.link.trace, PageOf(at);
    assert trace[|flushed| - 1] == flushed[|flushed| - 1];
    if r.Bytes? {
      forall i | 0 <= i < |r.data| && !(!flushed[|flushed| - 1].hard && Sticky(page, OffOf(at) + i))
        ensures DeliveredSince(trace, |flushed|, page, OffOf(at) + i, r.data[i])
      {
        if sfp.Direct(page, OffOf(at), m, r.data) {
          assert Delivered(trace, |trace| - 1, page, OffOf(at) + i, r.data[i]);
        } else {
          NothingOlderServed(trace, |flushed| - 1, page, OffOf(at) + i, r.data[i], sfp.link.now, sfp.pages[page].expiration);
        }
      }
    }
  }

  /** These bytes of a read's result that lie in upper page 0 are what was held there. */
  ghost predicate AsHeld(half: seq<byte>, at: nat, r: ReadResult) {
    r.Bytes? ==>
      forall i {:trigger r.data[i]} :: 0 <= i < |r.data| && Sticky(PageOf(at), OffOf(at) + i) ==>
        OffOf(at) + i - 128 < |half| && r.data[i] == half[OffOf(at) + i - 128]
  }

  /** With everything held of upper page 0 read since, or nothing held, a read is fresh there too. */
  lemma UpperFresh(sfp: Sfp, from: nat, at: nat, m: nat, r: ReadResult)
    requires sfp.PagesOk() && from < |sfp.link.trace| && ReadSince(sfp.link.trace, from, true, at, r)
    requires sfp.pages[0].admin ==> sfp.pages[0].up >= from
    requires r.Bytes? && r.data != [] ==>
               PageOf(at) < PAGES && (sfp.Direct(PageOf(at), OffOf(at), m, r.data) || sfp.FromCache(PageOf(at), OffOf(at), m, r.data))
    ensures ReadSince(sfp.link.trace, from, false, at, r)
  {
    var trace, p := sfp.link.trace, sfp.pages[0];
    assert p.Backed(trace);
    if r.Bytes? {
      forall i | 0 <= i < |r.data| && Sticky(PageOf(at), OffOf(at) + i)
        ensures DeliveredSince(trace, from, 0, OffOf(at) + i, r.data[i])
      {
        var k := if sfp.Direct(0, OffOf(at), m, r.data) then |trace| - 1 else p.up;
        assert Delivered(trace, k, 0, OffOf(at) + i, r.data[i]);
      }
    }
  }

  /** With it held all along, a read that does not come straight from the module returns just that. */
  lemma UpperHeld(sfp: Sfp, half: seq<byte>, at: nat, m: nat, r: ReadResult)
    requires sfp.PagesOk() && sfp.pages[0].admin && |sfp.pages[0].data| == 256 && sfp.pages[0].data[128..] == half
    requires r.Bytes? && r.data != [] ==>
               PageOf(at) < PAGES && (sfp.Direct(PageOf(at), OffOf(at), m, r.data) || sfp.FromCache(PageOf(at), OffOf(at), m, r.data))
    ensures Straight(sfp, at, m, r) || AsHeld(half, at, r)
  {
    if r.Bytes? && r.data != [] && !sfp.Direct(PageOf(at), OffOf(at), m, r.data) && PageOf(at) == 0 {
      forall i | 0 <= i < |r.data| && OffOf(at) + i >= 128
        ensures r.data[i] == half[OffOf(at) + i - 128]
      {
        assert r.data[i] == sfp.pages[0].data[OffOf(at) + i];
      }
    }
  }

  /** The result came straight from the module. */
  ghost predicate Straight(sfp: Sfp, at: nat, m: nat, r: ReadResult)
    reads sfp.link
  {
    r.Bytes? && sfp.Direct(PageOf(at), OffOf(at), m, r.data)
  }

  /**
   What a read returns after a flush at the end of `before`, with the upper half of
   page 0 held at that time (`was`), its bytes then being `half`, or not: everything is
   newer than the flush, except that after a soft flush a half that was held, with no
   hard flush since, is served as it was held unless the read goes to the module.
   */
  ghost predicate FlushSeen(sfp: Sfp, before: seq<Event>, was: bool, half: seq<byte>, at: nat, m: nat, r: ReadResult)
    reads sfp.link
  {
    before != [] && before[|before| - 1].Flushed? ==>
      var hard, now := before[|before| - 1].hard, sfp.link.trace;
      && ReadSince(now, |before|, !hard, at, r)
      && (!was || !NoHardFlush(now, |before|) ==> ReadSince(now, |before|, false, at, r))
      && (was && NoHardFlush(now, |before|) ==> Straight(sfp, at, m, r) || AsHeld(half, at, r))
  }

  /** A flush that has just happened is seen by a read, whatever happens in between. */
  method UseThenRead(sfp: Sfp, uses: seq<Use>, at: nat, m: nat) returns (r: ReadResult)
    requires sfp.Valid()
    modifies sfp`writeCache, sfp`lastWritePage, sfp`cdbChainPending, sfp`cdbChainStamp
    modifies sfp.link`sent, sfp.link`pace, sfp.link`now, sfp.link`told, sfp.link`mono, sfp.link`asked, sfp.link`trace, sfp.pages
    ensures sfp.Valid() && old(sfp.link.trace) <= sfp.link.trace
    ensures FlushSeen(sfp, old(sfp.link.trace), old(sfp.pages[0].admin), old(UpperHalf(sfp)), at, m, r)
  {
    ghost var before, was, half := sfp.link.trace, sfp.pages[0].admin, UpperHalf(sfp);
    assert sfp.pages[0].Backed(before);
    Apply(sfp, uses, |before|, was, half);
    r := ReadAfter(sfp, before, was, half, at, m);
  }

  ghost function UpperHalf(sfp: Sfp): seq<byte>
    requires sfp.Valid()
    reads sfp, sfp.link, sfp.pages
  {
    assert sfp.pages[0].Backed(sfp.link.trace);
    sfp.pages[0].data[128..]
  }

  /** The read itself. */
  method ReadAfter(sfp: Sfp, ghost before: seq<Event>, ghost was: bool, ghost half: seq<byte>, at: nat, m: nat) returns (r: ReadResult)
    requires sfp.Valid() && before <= sfp.link.trace && sfp.UpperFrom(|before|, was, half)
    modifies sfp.link`sent, sfp.link`pace, sfp.link`now, sfp.link`told, sfp.link`trace, sfp.pages
    ensures sfp.Valid() && old(sfp.link.trace) <= sfp.link.trace && FlushSeen(sfp, before, was, half, at, m, r)
  {
    assert sfp.pages[0].Backed(sfp.link.trace);
    r := sfp.ReadEeprom(at, m);
    assert sfp.pages[0].Backed(sfp.link.trace);
    if before != [] && before[|before| - 1].Flushed? {
      FreshAfterFlush(sfp, before, at, m, r);
      if was && NoHardFlush(sfp.link.trace, |before|) {
        UpperHeld(sfp, half, at, m, r);
      } else if |before| < |sfp.link.trace| {
        UpperFresh(sfp, |before|, at, m, r);
      }
    }
  }

  /**
   Read your writes: when a write that goes to the module itself returns true,
   nothing that any later read returns, whatever was read, written or swapped in
   between, was delivered before the write, whichever pages the two are on, with one
   exception: a byte of upper page 0, if that half was held at the write and no hard
   flush has come since, is the one that was held unless the read goes to the module.
   */
  method WriteThenRead(sfp: Sfp, offset: nat, n: nat, buf: seq<byte>, uses: seq<Use>, at: nat, m: nat)
    returns (ok: bool, ghost c: E.Call, r: ReadResult)
    requires sfp.Valid()
    modifies sfp`writeCache, sfp`lastWritePage, sfp`cdbChainPending, sfp`cdbChainStamp
    modifies sfp.link`sent, sfp.link`pace, sfp.link`now, sfp.link`told, sfp.link`mono, sfp.link`asked, sfp.link`trace, sfp.pages
    ensures sfp.Valid() && c == E.Call(PageOf(offset), OffOf(offset), n, buf, c.now)
    ensures ok && PlainLast(E.Msgs(old(sfp.Chain()), c)) ==>
              var from, was, now := |old(sfp.link.trace)|, old(sfp.pages[0].admin), sfp.link.trace;
              && ReadSince(now, from, was && NoHardFlush(now, from), at, r)
              && (was && NoHardFlush(now, from) ==> Straight(sfp, at, m, r) || AsHeld(old(UpperHalf(sfp)), at, r))
  {
    var raised;
    ghost var oks;
    ghost var start := sfp.link.trace;
    ok, raised, c, oks := sfp.WriteEeprom(offset, n, buf);
    ghost var written := sfp.link.trace;
    r := UseThenRead(sfp, uses, at, m);
    if ok && written != [] && written[|written| - 1] == Flushed(false) { SeenSinceStart(start, written, sfp.link.trace, at, r); }
  }

  /** What was delivered after the flush was delivered after the write; and the write's own events hold no hard flush. */
  lemma SeenSinceStart(start: seq<Event>, written: seq<Event>, now: seq<Event>, at: nat, r: ReadResult)
    requires start <= written <= now
    ensures forall soft :: ReadSince(now, |written|, soft, at, r) ==> ReadSince(now, |start|, soft, at, r)
  {
  }

  /** The trace of some write messages and their outcomes. */
  function Sends(ms: seq<E.Msg>, oks: seq<bool>): seq<Event>
    requires |oks| <= |ms|
  {
    seq(|oks|, i requires 0 <= i < |oks| => Wrote(ms[i], oks[i]))
  }

  lemma SendsMore(ms: seq<E.Msg>, oks: seq<bool>, last: E.Msg, ok: bool)
    requires |oks| == |ms|
    ensures Sends(ms + [last], oks) == Sends(ms, oks)
    ensures Sends(ms + [last], oks + [ok]) == Sends(ms, oks) + [Wrote(last, ok)]
  {
  }

  predicate PlainLast(ms: seq<E.Msg>) {
    ms != [] && ms[|ms| - 1].PageWrite?
  }
}
