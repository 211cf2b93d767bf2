/** Backsteps over instructions that walk between their stores, as a page-crossing store does: each
    byte is translated, recorded and written before the next. */
module InterleavedBacksteps {

  import opened Memory
  import opened PageTable
  import Privileged
  import opened CachelessHart
  import KeptTranslation
  import DataPath
  import opened Rollback

  /** One memory effect of an instruction: the write-back of a walk, or a recorded store. */
  datatype Event = Walked(at: Lookup) | Stored(store: Rollback.Write)

  predicate EventsFit(base: nat, size: nat, events: seq<Event>) {
    forall i :: 0 <= i < |events| && events[i].Stored? ==>
      Rollback.Fits(base, size, events[i].store.addr, events[i].store.funct3)
  }

  function Effect(d: Dram, sp: Space, e: Event): (r: Dram)
    requires EventsFit(d.base, |d.bytes|, [e])
    ensures r.base == d.base && |r.bytes| == |d.bytes|
  {
    match e
    case Walked(l) => Translate(d, sp, l.va, l.access, l.mode).1
    case Stored(s) => assert [e][0] == e; Applied(d, s)
  }

  lemma FirstFits(base: nat, size: nat, events: seq<Event>)
    requires events != [] && EventsFit(base, size, events)
    ensures EventsFit(base, size, [events[0]]) && EventsFit(base, size, events[1..])
  {
    hide Rollback.Fits;
  }

  /** The memory the events leave and the records they make, oldest first. */
  function Played(d: Dram, sp: Space, events: seq<Event>): (r: (Dram, seq<WriteRecord>))
    requires EventsFit(d.base, |d.bytes|, events)
    ensures r.0.base == d.base && |r.0.bytes| == |d.bytes| && RecordsFit(d.base, |d.bytes|, r.1)
    decreases |events|
  {
    if events == [] then (d, [])
    else
      FirstFits(d.base, |d.bytes|, events);
      var (last, records) := Played(Effect(d, sp, events[0]), sp, events[1..]);
      (last, (if events[0].Stored? then [Recorded(d, events[0].store)] else []) + records)
  }

  /** The memory after the instruction and its backstep. */
  function TakenBack(d: Dram, sp: Space, events: seq<Event>): (r: Dram)
    requires EventsFit(d.base, |d.bytes|, events)
    ensures r.base == d.base && |r.bytes| == |d.bytes|
  {
    var (last, records) := Played(d, sp, events);
    Replayed(last, records)
  }

  /** The store writes the byte at this offset of DRAM. */
  predicate Covers(base: nat, s: Rollback.Write, k: nat) {
    s.addr <= base + k < s.addr + DataPath.Bytes(s.funct3)
  }

  /** No walk changes the byte at offset k before the instruction's first store to it. */
  ghost predicate Spared(d: Dram, sp: Space, events: seq<Event>, k: nat)
    requires EventsFit(d.base, |d.bytes|, events) && k < |d.bytes|
    decreases |events|
  {
    events == [] ||
    (FirstFits(d.base, |d.bytes|, events);
     var next := Effect(d, sp, events[0]);
     if events[0].Stored? then Covers(d.base, events[0].store, k) || Spared(next, sp, events[1..], k)
     else next.bytes[k] == d.bytes[k] && Spared(next, sp, events[1..], k))
  }

  ghost predicate AllSpared(d: Dram, sp: Space, events: seq<Event>)
    requires EventsFit(d.base, |d.bytes|, events)
  {
    forall k :: 0 <= k < |d.bytes| ==> Spared(d, sp, events, k)
  }

  // ---- one event -------------------------------------------------------------------------------------

  /** Writing back a record restores its own bytes, whatever happened since, and no other. */
  lemma UndoByte(d: Dram, later: Dram, s: Rollback.Write, k: nat)
    requires later.base == d.base && |later.bytes| == |d.bytes| && k < |d.bytes|
    requires Rollback.Fits(d.base, |d.bytes|, s.addr, s.funct3)
    ensures Undone(later, Recorded(d, s)).bytes[k] == if Covers(d.base, s, k) then d.bytes[k] else later.bytes[k]
  {
    hide Load, Store, Span, Extend, DataPath.Bytes;
    var n, off := DataPath.Bytes(s.funct3), s.addr - d.base;
    var v, r := Load(d.bytes, off, n), Recorded(d, s).old_data;
    ExtendTruncates(v, s.funct3);
    StoreTruncates(later.bytes, off, n, r);
    var m := later.bytes[..off] + d.bytes[off..off + n] + later.bytes[off + n..];
    StoreHidesRange(later.bytes, m, off, n, v);
    LoadFrame(d.bytes, m, off, n);
    StoreOfLoad(m, off, n);
  }

  lemma StoreElsewhere(d: Dram, s: Rollback.Write, k: nat)
    requires Rollback.Fits(d.base, |d.bytes|, s.addr, s.funct3) && k < |d.bytes| && !Covers(d.base, s, k)
    ensures Applied(d, s).bytes[k] == d.bytes[k]
  {
    hide Store;
    StoreFrame(d.bytes, s.addr - d.base, DataPath.Bytes(s.funct3), s.data, k);
  }

  // ---- the whole instruction -------------------------------------------------------------------------

  /** The backstep of one more event in front: a store is written back last, a walk not at all. */
  lemma TakenBackFirst(d: Dram, sp: Space, events: seq<Event>)
    requires events != [] && EventsFit(d.base, |d.bytes|, events)
    ensures EventsFit(d.base, |d.bytes|, [events[0]]) && EventsFit(d.base, |d.bytes|, events[1..])
    ensures var rest := TakenBack(Effect(d, sp, events[0]), sp, events[1..]);
            match events[0]
            case Walked(_) => TakenBack(d, sp, events) == rest
            case Stored(s) =>
              Rollback.Fits(d.base, |d.bytes|, s.addr, s.funct3)
              && TakenBack(d, sp, events) == Undone(rest, Recorded(d, s))
  {
    hide Translate, Applied, Undone, Recorded, Rollback.Fits, Replayed;
    FirstFits(d.base, |d.bytes|, events);
    var (last, records) := Played(Effect(d, sp, events[0]), sp, events[1..]);
    match events[0] {
      case Walked(_) =>
        assert [] + records == records;
      case Stored(s) =>
        var all := [Recorded(d, s)] + records;
        assert all[1..] == records;
        ReplayFirst(last, all);
    }
  }

  /** No byte comes back smaller than it was, and it comes back as it was if and only if it was
      spared. */
  lemma {:induction false} ByteRestoredIff(d: Dram, sp: Space, events: seq<Event>, k: nat)
    requires (sp.Paged? ==> sp.root % 4096 == 0) && EventsFit(d.base, |d.bytes|, events) && k < |d.bytes|
    ensures var b := TakenBack(d, sp, events).bytes[k];
            d.bytes[k] <= b && (b == d.bytes[k] <==> Spared(d, sp, events, k))
    decreases |events|
  {
    hide Translate, Applied, Undone, Recorded, Rollback.Fits, Replayed, TakenBack, Covers;
    if events == [] {
      NothingPlayed(d, sp);
    } else {
      TakenBackFirst(d, sp, events);
      var next := Effect(d, sp, events[0]);
      ByteRestoredIff(next, sp, events[1..], k);
      match events[0] {
        case Walked(l) =>
          TranslateRaisesBytes(d, sp, l.va, l.access, l.mode, k);
        case Stored(s) =>
          UndoByte(d, TakenBack(next, sp, events[1..]), s, k);
          if !Covers(d.base, s, k) {
            StoreElsewhere(d, s, k);
          }
      }
    }
  }

  lemma NothingPlayed(d: Dram, sp: Space)
    ensures TakenBack(d, sp, []) == d
  {
  }

  /** An instruction that mixes walks and stores in any order is taken back exactly if and only if no
      walk changes a byte before the instruction's own first store to it. */
  lemma RestoredIffSpared(d: Dram, sp: Space, events: seq<Event>)
    requires (sp.Paged? ==> sp.root % 4096 == 0) && EventsFit(d.base, |d.bytes|, events)
    ensures TakenBack(d, sp, events) == d <==> AllSpared(d, sp, events)
  {
    hide Translate, TakenBack, Spared;
    var t := TakenBack(d, sp, events);
    forall k | 0 <= k < |d.bytes| ensures t.bytes[k] == d.bytes[k] <==> Spared(d, sp, events, k) {
      ByteRestoredIff(d, sp, events, k);
    }
    if AllSpared(d, sp, events) {
      assert t.bytes == d.bytes;
    }
  }

  // ---- the page-crossing store -------------------------------------------------------------------

  /** One byte of the store: its walk, then the byte if the walk answers with an address in DRAM. */
  lemma OneByteWrites(xlen: nat, w: World, at: nat, byte: nat)
    ensures var env := EnvOf(xlen, w);
            var (t, d) := Translate(w.dram, env.sp, at, Access.Write, env.Mode(Privileged.DataPrivilege(w.arch)));
            var (r, w1) := AccessOne(xlen, w, at, 1, Access.Write, Plain, byte);
            && d.base == w.dram.base && |d.bytes| == |w.dram.bytes| && EnvOf(xlen, w1) == env
            && w1.dram.base == w.dram.base && |w1.dram.bytes| == |w.dram.bytes|
            && if r.Trap? then w1.dram == d
               else |r.pas| == 1 && w1.dram == if d.Contains(r.pas[0], 1) then d.Put(r.pas[0], 1, byte) else d
  {
    hide Canonical, PageWalk, Store;
  }

  function ByteEvents(xlen: nat, w: World, at: nat, byte: nat): (r: seq<Event>)
    ensures EventsFit(w.dram.base, |w.dram.bytes|, r)
  {
    OneByteWrites(xlen, w, at, byte);
    var r := AccessOne(xlen, w, at, 1, Access.Write, Plain, byte).0;
    [Walked(Lookup(at, Access.Write, EnvOf(xlen, w).Mode(Privileged.DataPrivilege(w.arch))))]
    + if r.Reached? && w.dram.Contains(r.pas[0], 1) then [Stored(Rollback.Write(r.pas[0], 0, byte))] else []
  }

  /** What the store of the bytes from b on does to memory: it stops after the walk that traps. */
  function StoreEvents(xlen: nat, w: World, va: nat, b: nat, size: nat, data: nat): (r: seq<Event>)
    requires b <= size
    ensures EventsFit(w.dram.base, |w.dram.bytes|, r)
    decreases size - b
  {
    if b == size then []
    else
      var at, byte := (va + b) % Wrap(xlen), ByteOf(data, b);
      OneByteWrites(xlen, w, at, byte);
      var (r1, w1) := AccessOne(xlen, w, at, 1, Access.Write, Plain, byte);
      ByteEvents(xlen, w, at, byte) + if r1.Trap? then [] else StoreEvents(xlen, w1, va, b + 1, size, data)
  }

  lemma PlayedFirst(d: Dram, sp: Space, e: Event, rest: seq<Event>)
    requires EventsFit(d.base, |d.bytes|, [e] + rest)
    ensures EventsFit(d.base, |d.bytes|, [e]) && EventsFit(d.base, |d.bytes|, rest)
    ensures Played(d, sp, [e] + rest).0 == Played(Effect(d, sp, e), sp, rest).0
  {
    hide Translate, Applied, Rollback.Fits;
    FirstFits(d.base, |d.bytes|, [e] + rest);
    assert ([e] + rest)[1..] == rest;
  }

  lemma ByteEventsPlay(xlen: nat, w: World, at: nat, byte: nat, rest: seq<Event>)
    requires EventsFit(w.dram.base, |w.dram.bytes|, rest)
    ensures var (r1, w1) := AccessOne(xlen, w, at, 1, Access.Write, Plain, byte);
            var sp := EnvOf(xlen, w).sp;
            && w1.dram.base == w.dram.base && |w1.dram.bytes| == |w.dram.bytes| && EnvOf(xlen, w1).sp == sp
            && Played(w.dram, sp, ByteEvents(xlen, w, at, byte) + rest).0 == Played(w1.dram, sp, rest).0
  {
    hide Translate, AccessOne, EnvOf, Store, Rollback.Fits;
    OneByteWrites(xlen, w, at, byte);
    var (r1, w1) := AccessOne(xlen, w, at, 1, Access.Write, Plain, byte);
    var sp := EnvOf(xlen, w).sp;
    var walk := Walked(Lookup(at, Access.Write, EnvOf(xlen, w).Mode(Privileged.DataPrivilege(w.arch))));
    if r1.Reached? && w.dram.Contains(r1.pas[0], 1) {
      var store := Stored(Rollback.Write(r1.pas[0], 0, byte));
      assert ByteEvents(xlen, w, at, byte) + rest == [walk] + ([store] + rest);
      PlayedFirst(w.dram, sp, walk, [store] + rest);
      PlayedFirst(Effect(w.dram, sp, walk), sp, store, rest);
    } else {
      assert ByteEvents(xlen, w, at, byte) + rest == [walk] + rest;
      PlayedFirst(w.dram, sp, walk, rest);
    }
  }

  /** The events are what the hart's page-crossing store does to memory. */
  lemma {:induction false} EventsAreTheStore(xlen: nat, w: World, va: nat, b: nat, size: nat, data: nat)
    requires b <= size
    ensures Played(w.dram, EnvOf(xlen, w).sp, StoreEvents(xlen, w, va, b, size, data)).0
         == AccessBytes(xlen, w, va, b, size, Access.Write, Plain, data).1.dram
    decreases size - b
  {
    hide Translate, AccessOne, EnvOf, ByteOf, ByteEvents, Rollback.Fits;
    if b < size {
      var at, byte := (va + b) % Wrap(xlen), ByteOf(data, b);
      OneByteWrites(xlen, w, at, byte);
      var (r1, w1) := AccessOne(xlen, w, at, 1, Access.Write, Plain, byte);
      var rest := if r1.Trap? then [] else StoreEvents(xlen, w1, va, b + 1, size, data);
      ByteEventsPlay(xlen, w, at, byte, rest);
      if r1.Reached? {
        EventsAreTheStore(xlen, w1, va, b + 1, size, data);
      }
    }
  }

  /** A page-crossing store, byte by byte with a translation for each, is taken back exactly if and
      only if no walk changes a byte that the store has not written before. */
  lemma CrossingStoreRestoredIff(xlen: nat, w: World, va: nat, size: nat, data: nat)
    ensures var sp, events := EnvOf(xlen, w).sp, StoreEvents(xlen, w, va, 0, size, data);
            && Played(w.dram, sp, events).0 == AccessBytes(xlen, w, va, 0, size, Access.Write, Plain, data).1.dram
            && (TakenBack(w.dram, sp, events) == w.dram <==> AllSpared(w.dram, sp, events))
  {
    hide TakenBack, AllSpared, Played, StoreEvents, AccessBytes, EnvOf;
    KeptTranslation.EnvFits(xlen, w);
    EventsAreTheStore(xlen, w, va, 0, size, data);
    RestoredIffSpared(w.dram, EnvOf(xlen, w).sp, StoreEvents(xlen, w, va, 0, size, data));
  }
}
