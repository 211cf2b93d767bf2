/** Backsteps over instructions that translate: the undo stack records stores, but not the A and D
    bits that page walks set. */
module BackstepWalks {

  import opened Memory
  import opened PageTable
  import opened PageWalker
  import opened Privileged
  import opened CachelessHart
  import opened KeptTranslation
  import DataPath
  import opened Rollback

  /** An instruction's walks, in order, then its recorded stores; taken back by a backstep. */
  function WalkedAndTakenBack(d: Dram, sp: Space, walks: seq<Lookup>, stores: seq<Rollback.Write>): (r: Dram)
    requires AllFit(d.base, |d.bytes|, stores)
    ensures r.base == d.base && |r.bytes| == |d.bytes|
  {
    var d1 := WalkAll(d, sp, walks);
    Replayed(AppliedAll(d1, stores), RecordedAll(d1, stores))
  }

  /** The backstep takes back every store and leaves every bit a walk has set; so it restores memory
      if and only if no walk of the instruction had a bit to set. */
  lemma RestoredIffSettled(d: Dram, sp: Space, walks: seq<Lookup>, stores: seq<Rollback.Write>)
    requires (sp.Paged? ==> sp.root % 4096 == 0) && AllFit(d.base, |d.bytes|, stores)
    ensures WalkedAndTakenBack(d, sp, walks, stores) == WalkAll(d, sp, walks)
    ensures WalkedAndTakenBack(d, sp, walks, stores) == d <==> AllSettled(d, sp, walks)
  {
    hide Translate, Rollback.Fits;
    ReplayUndoes(WalkAll(d, sp, walks), stores);
    WalkAllSettled(d, sp, walks);
  }

  // ---- one translated store --------------------------------------------------------------------------

  /** A store of the hart within one page. */
  function TranslatedStore(xlen: nat, w: World, va: nat, funct3: nat, data: nat): (Result, World) {
    AccessOne(xlen, w, va, DataPath.Bytes(funct3), Access.Write, Plain, data)
  }

  /** The memory after the store and its backstep: the value overwritten is recorded after the walk,
      just before the write. */
  function TakenBack(xlen: nat, w: World, va: nat, funct3: nat, data: nat): Dram
    requires TranslatedStore(xlen, w, va, funct3, data).0.Reached?
    requires funct3 <= 3 && InMemory(w, TranslatedStore(xlen, w, va, funct3, data).0, funct3)
  {
    var (r, w1) := TranslatedStore(xlen, w, va, funct3, data);
    var env := EnvOf(xlen, w);
    var walked := Translate(w.dram, env.sp, va, Access.Write, env.Mode(DataPrivilege(w.arch))).1;
    Undone(w1.dram, Rollback.Recorded(walked, Rollback.Write(r.pas[0], funct3, data)))
  }

  predicate InMemory(w: World, r: Result, funct3: nat)
    requires r.Reached?
  {
    r.pas != [] && w.dram.Contains(r.pas[0], DataPath.Bytes(funct3))
  }

  /** The entry that maps the address has A and D set, or the address is not translated. */
  predicate Dirty(xlen: nat, w: World, va: nat) {
    var env := EnvOf(xlen, w);
    !Translating(env.sp, env.Mode(DataPrivilege(w.arch))) || !env.sp.Paged? ||
    (var leaf := Walk(w.dram, env.sp.format, env.sp.root, va, env.sp.format.Levels() - 1);
     leaf.Leaf? && A(leaf.pte) && D(leaf.pte))
  }

  /** Taking back a translated store restores memory if and only if its walk wrote nothing, that is, if
      and only if the leaf's A and D bits were already set. */
  lemma TakenBackIff(xlen: nat, w: World, va: nat, funct3: nat, data: nat)
    requires TranslatedStore(xlen, w, va, funct3, data).0.Reached?
    requires funct3 <= 3 && InMemory(w, TranslatedStore(xlen, w, va, funct3, data).0, funct3)
    ensures var env := EnvOf(xlen, w);
            var walked := Translate(w.dram, env.sp, va, Access.Write, env.Mode(DataPrivilege(w.arch))).1;
            && TakenBack(xlen, w, va, funct3, data) == walked
            && (TakenBack(xlen, w, va, funct3, data) == w.dram <==> walked == w.dram)
            && (TakenBack(xlen, w, va, funct3, data) == w.dram <==> Dirty(xlen, w, va))
  {
    hide Translate, SatpSpace, SatpAsid, Canonical, Load, Store, Undone, Rollback.Recorded, Applied, Dirty;
    var (r, w1) := TranslatedStore(xlen, w, va, funct3, data);
    var env := EnvOf(xlen, w);
    var walked := Translate(w.dram, env.sp, va, Access.Write, env.Mode(DataPrivilege(w.arch))).1;
    var store := Rollback.Write(r.pas[0], funct3, data);
    StoreApplied(xlen, w, va, funct3, data);
    UndoOne(walked, store);
    EnvFits(xlen, w);
    DirtyIsSettled(xlen, w, va);
  }

  lemma StoreApplied(xlen: nat, w: World, va: nat, funct3: nat, data: nat)
    requires TranslatedStore(xlen, w, va, funct3, data).0.Reached?
    requires funct3 <= 3 && InMemory(w, TranslatedStore(xlen, w, va, funct3, data).0, funct3)
    ensures var (r, w1) := TranslatedStore(xlen, w, va, funct3, data);
            var env := EnvOf(xlen, w);
            var (t, walked) := Translate(w.dram, env.sp, va, Access.Write, env.Mode(DataPrivilege(w.arch)));
            && t == Mapped(r.pas[0])
            && Rollback.Fits(walked.base, |walked.bytes|, r.pas[0], funct3)
            && w1.dram == Applied(walked, Rollback.Write(r.pas[0], funct3, data))
  {
    hide Translate, SatpSpace, SatpAsid, Canonical, Load, Store;
  }

  /** The walk of an allowed store writes nothing exactly when A and D are set. */
  lemma DirtyIsSettled(xlen: nat, w: World, va: nat)
    requires var env := EnvOf(xlen, w);
             Translate(w.dram, env.sp, va, Access.Write, env.Mode(DataPrivilege(w.arch))).0.Mapped?
    ensures var env := EnvOf(xlen, w);
            var walked := Translate(w.dram, env.sp, va, Access.Write, env.Mode(DataPrivilege(w.arch))).1;
            walked == w.dram <==> Dirty(xlen, w, va)
  {
    hide SatpSpace, SatpAsid, Canonical, Walk, V, R, W, X, U, A, D, Ppn, ReservedHigh, SuperPages, LeafAddress,
         Permitted,
         Load, Store;
    var env := EnvOf(xlen, w);
    var mode := env.Mode(DataPrivilege(w.arch));
    if Translating(env.sp, mode) && env.sp.Paged? && Translate(w.dram, env.sp, va, Access.Write, mode).1 == w.dram {
      SettledLeaf(w.dram, env.sp, va, Access.Write, mode);
    }
  }
}
