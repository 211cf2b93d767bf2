/** The MMIO router: registered devices sorted by base address, found by binary search with a
    linear fallback for devices that own only part of their range. */
module Router {

  import opened Options

  const ADDRESS_MAX: nat := 0xFFFF_FFFF_FFFF_FFFF

  /** A device as the router sees it. Its range never changes; `owned` may leave gaps in it, but
      it owns nothing outside. */
  class Node {
    const base: nat
    const size: nat
    const owned: nat -> bool

    constructor (base: nat, size: nat, owned: nat -> bool)
      ensures this.base == base && this.size == size && this.owned == owned
    {
      this.base, this.size, this.owned := base, size, owned;
    }
  }

  /** A device with no `contains` of its own owns its whole range; any other owns part of it. */
  ghost predicate InsideRange(n: Node) {
    forall a: nat {:trigger n.owned(a)} :: n.owned(a) ==> n.base <= a < n.base + n.size
  }

  predicate Acceptable(n: Node) { 0 < n.size <= ADDRESS_MAX - n.base }

  ghost predicate Disjoint(a: Node, b: Node) {
    forall x: nat {:trigger a.owned(x)} {:trigger b.owned(x)} :: !(a.owned(x) && b.owned(x))
  }

  /** Two nodes in list order: by base, and with no address in common. */
  ghost predicate Ordered(a: Node, b: Node) {
    a.base <= b.base && a != b && Disjoint(a, b)
  }

  /** The invariant of every registration and removal. */
  ghost predicate Routable(s: seq<Node>) {
    && (forall i, j :: 0 <= i < j < |s| ==> Ordered(s[i], s[j]))
    && forall i :: 0 <= i < |s| ==> InsideRange(s[i]) && Acceptable(s[i])
  }

  ghost predicate Owns(s: seq<Node>, n: Node, addr: nat) {
    n in s && n.owned(addr)
  }

  lemma OwnerUnique(s: seq<Node>, a: Node, b: Node, addr: nat)
    requires Routable(s) && Owns(s, a, addr) && Owns(s, b, addr)
    ensures a == b
  {
    var i :| 0 <= i < |s| && s[i] == a;
    var j :| 0 <= j < |s| && s[j] == b;
    assert i < j ==> Ordered(s[i], s[j]);
    assert j < i ==> Ordered(s[j], s[i]);
  }

  /** Where the sort puts a newly appended node: after every node with a base at most its own. */
  function Position(s: seq<Node>, n: Node): (p: nat)
    ensures p <= |s|
    ensures forall i :: 0 <= i < p ==> s[i].base <= n.base
    ensures p < |s| ==> n.base < s[p].base
  {
    if s == [] || n.base < s[0].base then 0 else 1 + Position(s[1..], n)
  }

  lemma InsertKeeps(s: seq<Node>, n: Node, p: nat)
    requires Routable(s) && InsideRange(n) && Acceptable(n) && n !in s && p == Position(s, n)
    requires forall i :: 0 <= i < |s| ==> Disjoint(n, s[i])
    ensures Routable(s[..p] + [n] + s[p..])
    ensures forall x :: x in s[..p] + [n] + s[p..] <==> x in s || x == n
  {
    hide InsideRange, Disjoint, Acceptable;
    InsertMembers(s, n, p);
    forall i | 0 <= i < |s|
      ensures i < p ==> Ordered(s[i], n)
      ensures p <= i ==> Ordered(n, s[i])
    {
      DisjointSymmetric(n, s[i]);
      assert p < i ==> Ordered(s[p], s[i]);
    }
    InsertPairs(s, n, p);
    assert forall x :: x in s ==> InsideRange(x) && Acceptable(x);
  }

  lemma InsertPairs(s: seq<Node>, n: Node, p: nat)
    requires p <= |s| && forall i, j :: 0 <= i < j < |s| ==> Ordered(s[i], s[j])
    requires forall i :: 0 <= i < p ==> Ordered(s[i], n)
    requires forall i :: p <= i < |s| ==> Ordered(n, s[i])
    ensures var t := s[..p] + [n] + s[p..]; forall i, j :: 0 <= i < j < |t| ==> Ordered(t[i], t[j])
  {
    hide Ordered;
    var t := s[..p] + [n] + s[p..];
    forall i, j | 0 <= i < j < |t| ensures Ordered(t[i], t[j]) {
      assert t[i] == if i < p then s[i] else if i == p then n else s[i - 1];
      assert t[j] == if j < p then s[j] else if j == p then n else s[j - 1];
    }
  }

  lemma DisjointSymmetric(a: Node, b: Node)
    ensures Disjoint(a, b) <==> Disjoint(b, a)
  {
  }

  lemma InsertMembers<T>(s: seq<T>, n: T, p: nat)
    requires p <= |s|
    ensures forall x :: x in s[..p] + [n] + s[p..] <==> x in s || x == n
  {
    assert s == s[..p] + s[p..];
  }

  lemma RemoveMembers(s: seq<Node>, p: nat)
    requires Routable(s) && p < |s|
    ensures forall x :: x in s[..p] + s[p + 1..] <==> x in s && x != s[p]
  {
    hide InsideRange, Acceptable;
    assert s == s[..p] + [s[p]] + s[p + 1..];
    assert forall i :: 0 <= i < p ==> Ordered(s[i], s[p]);
    assert forall i :: p < i < |s| ==> Ordered(s[p], s[i]);
    assert s[p] !in s[..p] && s[p] !in s[p + 1..];
  }

  lemma RemoveKeeps(s: seq<Node>, p: nat)
    requires Routable(s) && p < |s|
    ensures Routable(s[..p] + s[p + 1..])
    ensures forall x :: x in s[..p] + s[p + 1..] <==> x in s && x != s[p]
  {
    hide Ordered, InsideRange, Acceptable;
    RemoveMembers(s, p);
    var t := s[..p] + s[p + 1..];
    assert forall i :: 0 <= i < |t| ==> t[i] == s[if i < p then i else i + 1];
  }

  /** A device that shares an address with another registered one is not registered itself. */
  lemma NotRegistered(s: seq<Node>, i: nat, n: Node)
    requires Routable(s) && i < |s| && s[i] != n && !Disjoint(n, s[i])
    ensures n !in s
  {
    hide InsideRange;
    forall k | 0 <= k < |s| ensures s[k] != n {
      assert i < k ==> Ordered(s[i], s[k]);
      assert k < i ==> Ordered(s[k], s[i]);
      DisjointSymmetric(s[k], s[i]);
    }
  }

  lemma BasesAscend(s: seq<Node>, p: nat)
    requires Routable(s) && p < |s|
    ensures forall i :: 0 <= i < p ==> s[i].base <= s[p].base
    ensures forall i :: p < i < |s| ==> s[p].base <= s[i].base
  {
    hide Disjoint, InsideRange;
    assert forall i :: 0 <= i < p ==> Ordered(s[i], s[p]);
    assert forall i :: p < i < |s| ==> Ordered(s[p], s[i]);
  }

  // ---- the reference: a set of devices ---------------------------------------------------

  /** The device of the set that owns addr. */
  ghost function OwnerIn(devices: set<Node>, addr: nat): (r: Option<Node>)
    ensures r.Some? ==> r.value in devices && r.value.owned(addr)
    ensures r.None? ==> forall n :: n in devices ==> !n.owned(addr)
  {
    if exists n :: n in devices && n.owned(addr) then
      var n :| n in devices && n.owned(addr);
      Some(n)
    else None
  }

  datatype Command = Register(node: Option<Node>) | Unregister(node: Option<Node>) | Resolve(addr: nat)
  datatype Answer = Flag(ok: bool) | Found(device: Option<Node>)

  ghost predicate Admits(devices: set<Node>, n: Node) {
    Acceptable(n) && (n in devices || forall m :: m in devices ==> Disjoint(n, m))
  }

  ghost function RefStep(devices: set<Node>, c: Command): (Answer, set<Node>) {
    match c
    case Register(node) =>
      if node.Some? && Admits(devices, node.value) then (Flag(true), devices + {node.value})
      else (Flag(false), devices)
    case Unregister(node) =>
      if node.Some? && node.value in devices then (Flag(true), devices - {node.value})
      else (Flag(false), devices)
    case Resolve(addr) => (Found(OwnerIn(devices, addr)), devices)
  }

  ghost function RefRun(devices: set<Node>, cs: seq<Command>): (seq<Answer>, set<Node>)
    decreases |cs|
  {
    if cs == [] then ([], devices)
    else
      var (a, d1) := RefStep(devices, cs[0]);
      var (rest, d2) := RefRun(d1, cs[1..]);
      ([a] + rest, d2)
  }

  class MmioRouter {
    var nodes: seq<Node>

    ghost predicate Valid()
      reads this
    {
      Routable(nodes)
    }

    ghost function Devices(): set<Node>
      reads this
    {
      set n | n in nodes
    }

    constructor ()
      ensures Valid() && nodes == [] && Devices() == {}
    {
      nodes := [];
    }

    /** Scans the common range of two devices for an address both own. */
    method OwnSameByte(a: Node, b: Node) returns (shared: bool)
      requires InsideRange(a) && InsideRange(b)
      ensures shared <==> !Disjoint(a, b)
    {
      var begin := if a.base < b.base then b.base else a.base;
      var end := if a.base + a.size < b.base + b.size then a.base + a.size else b.base + b.size;
      var x := begin;
      while x < end
        invariant begin <= x
        invariant forall y :: begin <= y < x ==> !(a.owned(y) && b.owned(y))
        decreases end - x
      {
        if a.owned(x) && b.owned(x) {
          return true;
        }
        x := x + 1;
      }
      shared := false;
    }

    /** Accepts a device exactly when its range is representable and it shares no address with a
        registered one; registering the same device again changes nothing. */
    method RegisterDevice(node: Option<Node>) returns (ok: bool)
      requires Valid() && (node.Some? ==> InsideRange(node.value))
      modifies this
      ensures Valid()
      ensures (Flag(ok), Devices()) == RefStep(old(Devices()), Register(node))
      ensures ok <==>
              && node.Some? && node.value.size > 0 && node.value.base + node.value.size <= 0xFFFF_FFFF_FFFF_FFFF
              && (node.value in old(Devices()) || forall m :: m in old(Devices()) ==> Disjoint(node.value, m))
    {
      if node.None? {
        return false;
      }
      var n := node.value;
      if n.size == 0 || n.size > ADDRESS_MAX - n.base {
        return false;
      }
      for i := 0 to |nodes|
        invariant nodes == old(nodes)
        invariant forall k :: 0 <= k < i ==> nodes[k] != n && Disjoint(n, nodes[k])
      {
        if nodes[i] == n {
          assert Devices() + {n} == Devices();
          return true;
        }
        if nodes[i].size > ADDRESS_MAX - nodes[i].base {
          return false;
        }
        var shared := OwnSameByte(n, nodes[i]);
        if shared {
          NotRegistered(nodes, i, n);
          assert nodes[i] in Devices() && n !in Devices();
          return false;
        }
      }
      var p := Position(nodes, n);
      InsertKeeps(nodes, n, p);
      nodes := nodes[..p] + [n] + nodes[p..];
      assert Devices() == old(Devices()) + {n};
      ok := true;
    }

    method UnregisterDevice(node: Option<Node>) returns (ok: bool)
      requires Valid()
      modifies this
      ensures Valid()
      ensures (Flag(ok), Devices()) == RefStep(old(Devices()), Unregister(node))
    {
      if node.None? {
        return false;
      }
      var i := 0;
      while i < |nodes| && nodes[i] != node.value
        invariant i <= |nodes| && forall k :: 0 <= k < i ==> nodes[k] != node.value
      {
        i := i + 1;
      }
      if i < |nodes| {
        RemoveKeeps(nodes, i);
        nodes := nodes[..i] + nodes[i + 1..];
        assert Devices() == old(Devices()) - {node.value};
        return true;
      }
      ok := false;
    }

    /** upper_bound: the first node whose base lies above addr. */
    method UpperBound(addr: nat) returns (p: nat)
      requires Valid()
      ensures p <= |nodes|
      ensures forall i :: 0 <= i < p ==> nodes[i].base <= addr
      ensures forall i :: p <= i < |nodes| ==> addr < nodes[i].base
    {
      var lo, hi := 0, |nodes|;
      while lo < hi
        invariant 0 <= lo <= hi <= |nodes|
        invariant forall i :: 0 <= i < lo ==> nodes[i].base <= addr
        invariant forall i :: hi <= i < |nodes| ==> addr < nodes[i].base
      {
        var mid := (lo + hi) / 2;
        BasesAscend(nodes, mid);
        if addr < nodes[mid].base {
          hi := mid;
        } else {
          lo := mid + 1;
        }
      }
      p := lo;
    }

    /** The unique owner of the address, or nothing exactly when there is none. */
    method ResolveDevice(addr: nat) returns (r: Option<Node>)
      requires Valid()
      ensures r.None? <==> forall n :: n in nodes ==> !n.owned(addr)
      ensures r.Some? ==> forall n :: n in nodes && n.owned(addr) <==> n == r.value
      ensures r == OwnerIn(Devices(), addr)
    {
      ghost var owner := OwnerIn(Devices(), addr);
      if nodes == [] {
        return None;
      }
      var p := UpperBound(addr);
      if p != 0 && nodes[p - 1].owned(addr) {
        OnlyOwner(nodes, p - 1, addr);
        return Some(nodes[p - 1]);
      }
      for i := 0 to |nodes|
        invariant forall k :: 0 <= k < i ==> !nodes[k].owned(addr)
      {
        if nodes[i].owned(addr) {
          OnlyOwner(nodes, i, addr);
          return Some(nodes[i]);
        }
      }
      r := None;
    }

    /** Any sequence of registrations, removals and lookups answers like a plain set of devices,
        whatever the order of registration. */
    method Play(cs: seq<Command>) returns (answers: seq<Answer>)
      requires Valid()
      requires forall k :: 0 <= k < |cs| && cs[k].Register? && cs[k].node.Some? ==> InsideRange(cs[k].node.value)
      modifies this
      ensures Valid() && (answers, Devices()) == RefRun(old(Devices()), cs)
    {
      hide Routable, RefStep, InsideRange;
      answers := [];
      ghost var d := Devices();
      assert cs[0..] == cs;
      for k := 0 to |cs|
        invariant Valid()
        invariant RefRun(d, cs).0 == answers + RefRun(Devices(), cs[k..]).0
        invariant RefRun(d, cs).1 == RefRun(Devices(), cs[k..]).1
      {
        assert cs[k..][0] == cs[k] && cs[k..][1..] == cs[k + 1..];
        var a := PlayOne(cs[k]);
        answers := answers + [a];
      }
      assert RefRun(Devices(), cs[|cs|..]) == ([], Devices());
      assert answers + [] == answers;
    }

    method PlayOne(c: Command) returns (a: Answer)
      requires Valid() && (c.Register? && c.node.Some? ==> InsideRange(c.node.value))
      modifies this
      ensures Valid() && (a, Devices()) == RefStep(old(Devices()), c)
    {
      match c
      case Register(node) => var ok := RegisterDevice(node); a := Flag(ok);
      case Unregister(node) => var ok := UnregisterDevice(node); a := Flag(ok);
      case Resolve(addr) => var r := ResolveDevice(addr); a := Found(r);
    }
  }

  lemma OnlyOwner(s: seq<Node>, i: nat, addr: nat)
    requires Routable(s) && i < |s| && s[i].owned(addr)
    ensures forall n :: n in s && n.owned(addr) <==> n == s[i]
    ensures OwnerIn((set n | n in s), addr) == Some(s[i])
  {
    forall n | n in s && n.owned(addr) ensures n == s[i] {
      OwnerUnique(s, n, s[i], addr);
    }
    assert s[i] in (set n | n in s);
  }

  /** Two routers that hold the same devices hold them in orders that resolve alike, and in any
      reachable router no address has two owners. */
  lemma OrderIrrelevant(s: seq<Node>, t: seq<Node>, a: Node, b: Node, addr: nat)
    requires Routable(s) && Routable(t) && (forall n :: n in s <==> n in t)
    requires Owns(s, a, addr) && Owns(t, b, addr)
    ensures a == b
  {
    OwnerUnique(s, a, b, addr);
  }
}
