/**
 * Lists of free blocks in address order, in units of one Header: what inserting a block with
 * coalescing on both sides and carving a block off do to the memory they cover.
 */
module FreeList {
  datatype Blk = Blk(addr: int, size: nat)

  function End(b: Blk): int { b.addr + b.size }

  /** The units [a, a + n). */
  ghost function Seg(a: int, n: nat): (s: set<int>)
    ensures forall u :: u in s <==> a <= u < a + n
  {
    if n == 0 then {} else Seg(a, n - 1) + {a + n - 1}
  }

  ghost function Units(fl: seq<Blk>): set<int> {
    if fl == [] then {} else Units(fl[..|fl| - 1]) + Seg(fl[|fl| - 1].addr, fl[|fl| - 1].size)
  }

  /** Address order, no overlap and no two blocks that touch, after a first block of size 0. */
  ghost predicate Sorted(fl: seq<Blk>) {
    && |fl| > 0 && fl[0].size == 0
    && (forall i | 0 < i < |fl| :: fl[i].size > 0)
    && (forall i, j | 0 <= i < j < |fl| :: End(fl[i]) < fl[j].addr)
  }

  /** b lies in the gap after block t. */
  ghost predicate InGap(fl: seq<Blk>, t: nat, b: Blk) {
    && t < |fl| && b.size > 0
    && End(fl[t]) <= b.addr && fl[t].addr < b.addr
    && (t + 1 < |fl| ==> End(b) <= fl[t + 1].addr)
  }

  function JoinsNext(fl: seq<Blk>, t: nat, b: Blk): bool
    requires t < |fl|
  {
    t + 1 < |fl| && End(b) == fl[t + 1].addr
  }

  /** free(): first join b with the block after it, then the result with the block before it. */
  function Insert(fl: seq<Blk>, t: nat, b: Blk): (r: seq<Blk>)
    requires t < |fl|
  {
    var (c, rest) := if JoinsNext(fl, t, b) then (Blk(b.addr, b.size + fl[t + 1].size), fl[t + 2..])
                     else (b, fl[t + 1..]);
    if End(fl[t]) == c.addr then fl[..t] + [Blk(fl[t].addr, fl[t].size + c.size)] + rest
    else fl[..t + 1] + [c] + rest
  }

  lemma SegJoin(a: int, m: nat, n: nat)
    ensures Seg(a, m + n) == Seg(a, m) + Seg(a + m, n)
  {
  }

  lemma {:induction false} UnitsConcat(s: seq<Blk>, t: seq<Blk>)
    ensures Units(s + t) == Units(s) + Units(t)
    decreases |t|
  {
    if t == [] {
      assert s + t == s;
    } else {
      UnitsConcat(s, t[..|t| - 1]);
      assert (s + t)[..|s + t| - 1] == s + t[..|t| - 1];
    }
  }

  lemma UnitsOne(b: Blk)
    ensures Units([b]) == Seg(b.addr, b.size)
  {
    assert [b][..0] == [];
  }

  lemma UnitsAround(l: seq<Blk>, b: Blk, r: seq<Blk>)
    ensures Units(l + [b] + r) == Units(l) + Seg(b.addr, b.size) + Units(r)
  {
    hide Units, Seg;
    UnitsConcat(l + [b], r);
    UnitsConcat(l, [b]);
    UnitsOne(b);
  }

  lemma UnitsSplit(fl: seq<Blk>, k: nat)
    requires k < |fl|
    ensures Units(fl) == Units(fl[..k]) + Seg(fl[k].addr, fl[k].size) + Units(fl[k + 1..])
  {
    hide Units, Seg;
    assert fl == fl[..k] + [fl[k]] + fl[k + 1..];
    UnitsAround(fl[..k], fl[k], fl[k + 1..]);
  }

  /** Joining b with the next block covers the same units. */
  lemma JoinNextUnits(fl: seq<Blk>, t: nat, b: Blk)
    requires t < |fl| && JoinsNext(fl, t, b)
    ensures Seg(b.addr, b.size + fl[t + 1].size) + Units(fl[t + 2..]) == Seg(b.addr, b.size) + Units(fl[t + 1..])
  {
    hide Units, Seg;
    var r := fl[t + 1..];
    assert r[1..] == fl[t + 2..] && r[..0] == [] && r[0] == fl[t + 1];
    UnitsSplit(r, 0);
    NoUnits();
    SegJoin(b.addr, b.size, fl[t + 1].size);
  }

  lemma NoUnits()
    ensures Units([]) == {}
  {
  }

  lemma InsertUnitsAt(fl: seq<Blk>, t: nat, c: Blk, rest: seq<Blk>, b: set<int>)
    requires t < |fl| && Seg(c.addr, c.size) + Units(rest) == b + Units(fl[t + 1..])
    ensures Units(fl[..t + 1] + [c] + rest) == Units(fl) + b
    ensures End(fl[t]) == c.addr ==> Units(fl[..t] + [Blk(fl[t].addr, fl[t].size + c.size)] + rest) == Units(fl) + b
  {
    hide Units, Seg;
    UnitsSplit(fl, t);
    UnitsAround(fl[..t + 1], c, rest);
    UnitsSplit(fl[..t + 1], t);
    NoUnits();
    assert fl[..t + 1][..t] == fl[..t] && fl[..t + 1][t + 1..] == [];
    if End(fl[t]) == c.addr {
      SegJoin(fl[t].addr, fl[t].size, c.size);
      UnitsAround(fl[..t], Blk(fl[t].addr, fl[t].size + c.size), rest);
    }
  }

  /** Inserting adds exactly the block's units. */
  lemma InsertUnits(fl: seq<Blk>, t: nat, b: Blk)
    requires t < |fl|
    ensures Units(Insert(fl, t, b)) == Units(fl) + Seg(b.addr, b.size)
  {
    hide Units, Seg;
    if JoinsNext(fl, t, b) {
      JoinNextUnits(fl, t, b);
      InsertUnitsAt(fl, t, Blk(b.addr, b.size + fl[t + 1].size), fl[t + 2..], Seg(b.addr, b.size));
    } else {
      InsertUnitsAt(fl, t, b, fl[t + 1..], Seg(b.addr, b.size));
    }
  }

  /** A sorted part, a block in the gap, a sorted part. */
  lemma SortedAround(l: seq<Blk>, c: Blk, r: seq<Blk>)
    requires Sorted(l) && c.size > 0 && (forall i | 0 <= i < |r| :: r[i].size > 0)
    requires forall i | 0 <= i < |l| :: End(l[i]) < c.addr
    requires forall i | 0 <= i < |r| :: End(c) < r[i].addr
    requires forall i, j | 0 <= i < j < |r| :: End(r[i]) < r[j].addr
    ensures Sorted(l + [c] + r) && (l + [c] + r)[0] == l[0]
  {
    var s := l + [c] + r;
    forall i, j | 0 <= i < j < |s| ensures End(s[i]) < s[j].addr {
      if i < |l| && j > |l| { assert End(l[i]) < c.addr && End(c) < s[j].addr; }
    }
  }

  lemma SortedAt(fl: seq<Blk>, i: nat, j: nat)
    requires Sorted(fl) && i < j < |fl|
    ensures End(fl[i]) < fl[j].addr
  {
  }

  lemma SortedPrefix(fl: seq<Blk>, k: nat)
    requires Sorted(fl) && 0 < k <= |fl|
    ensures Sorted(fl[..k]) && fl[..k][0] == fl[0]
  {
  }

  /** Block c, ending before rest = fl[m..], goes after block t or is joined to it. */
  lemma InsertSortedAt(fl: seq<Blk>, t: nat, c: Blk, m: nat)
    requires Sorted(fl) && t < m <= |fl| && c.size > 0 && fl[t].addr < c.addr && End(fl[t]) <= c.addr
    requires m < |fl| ==> End(c) < fl[m].addr
    ensures End(fl[t]) < c.addr ==> Sorted(fl[..t + 1] + [c] + fl[m..]) && (fl[..t + 1] + [c] + fl[m..])[0] == fl[0]
    ensures End(fl[t]) == c.addr ==>
              var j := fl[..t] + [Blk(fl[t].addr, fl[t].size + c.size)] + fl[m..];
              Sorted(j) && j[0] == fl[0]
  {
    var rest := fl[m..];
    assert forall i | 0 <= i < |rest| :: rest[i] == fl[m + i] && End(c) < rest[i].addr;
    SortedPrefix(fl, t + 1);
    if End(fl[t]) == c.addr {
      SortedPrefix(fl, t);
      SortedAround(fl[..t], Blk(fl[t].addr, fl[t].size + c.size), rest);
    } else {
      SortedAround(fl[..t + 1], c, rest);
    }
  }

  /** Inserting keeps the list in address order with no two blocks touching. */
  lemma InsertSorted(fl: seq<Blk>, t: nat, b: Blk)
    requires Sorted(fl) && InGap(fl, t, b)
    ensures Sorted(Insert(fl, t, b)) && Insert(fl, t, b)[0] == fl[0]
  {
    hide Sorted;
    if JoinsNext(fl, t, b) {
      if t + 2 < |fl| { SortedAt(fl, t + 1, t + 2); }
      InsertSortedAt(fl, t, Blk(b.addr, b.size + fl[t + 1].size), t + 2);
    } else {
      InsertSortedAt(fl, t, b, t + 1);
    }
  }

  /** malloc(): block i gives up its last n units, or leaves the list if it has exactly n. */
  function Carve(fl: seq<Blk>, i: nat, n: nat): (r: seq<Blk>)
    requires i < |fl| && 0 < n <= fl[i].size
  {
    if fl[i].size == n then fl[..i] + fl[i + 1..] else fl[i := Blk(fl[i].addr, fl[i].size - n)]
  }

  function Carved(fl: seq<Blk>, i: nat, n: nat): Blk
    requires i < |fl| && 0 < n <= fl[i].size
  {
    Blk(End(fl[i]) - n, n)
  }

  lemma CarveSorted(fl: seq<Blk>, i: nat, n: nat)
    requires Sorted(fl) && 0 < i < |fl| && 0 < n <= fl[i].size
    ensures Sorted(Carve(fl, i, n)) && Carve(fl, i, n)[0] == fl[0]
  {
  }

  lemma {:induction false} UnitsMember(fl: seq<Blk>, u: int)
    ensures u in Units(fl) <==> exists i :: 0 <= i < |fl| && fl[i].addr <= u < End(fl[i])
  {
    if fl != [] {
      UnitsMember(fl[..|fl| - 1], u);
      assert forall i | 0 <= i < |fl| - 1 :: fl[..|fl| - 1][i] == fl[i];
      if i :| 0 <= i < |fl| && fl[i].addr <= u < End(fl[i]) {
        assert i < |fl| - 1 ==> fl[..|fl| - 1][i].addr <= u;
      }
    }
  }

  /** A unit of one block of a sorted list is in no other block. */
  lemma OnlyBlock(fl: seq<Blk>, i: nat, u: int)
    requires Sorted(fl) && i < |fl| && fl[i].addr <= u < End(fl[i])
    ensures u !in Units(fl[..i]) && u !in Units(fl[i + 1..])
  {
    UnitsMember(fl[..i], u);
    UnitsMember(fl[i + 1..], u);
  }

  /** Carving splits the units: what is left and what is handed out, with nothing in both. */
  lemma CarveUnits(fl: seq<Blk>, i: nat, n: nat)
    requires Sorted(fl) && 0 < i < |fl| && 0 < n <= fl[i].size
    ensures var c := Carved(fl, i, n);
            && Units(fl) == Units(Carve(fl, i, n)) + Seg(c.addr, n)
            && Units(Carve(fl, i, n)) !! Seg(c.addr, n)
  {
    hide Units, Seg, Sorted;
    var c := Carved(fl, i, n);
    UnitsSplit(fl, i);
    SegJoin(fl[i].addr, fl[i].size - n, n);
    if fl[i].size == n {
      UnitsConcat(fl[..i], fl[i + 1..]);
      assert Seg(fl[i].addr, 0) == {};
    } else {
      var left := Blk(fl[i].addr, fl[i].size - n);
      UnitsAround(fl[..i], left, fl[i + 1..]);
      assert Carve(fl, i, n) == fl[..i] + [left] + fl[i + 1..];
    }
    forall u | u in Seg(c.addr, n) ensures u !in Units(fl[..i]) && u !in Units(fl[i + 1..]) {
      OnlyBlock(fl, i, u);
    }
  }

  /** A unit below the last block of a sorted list is not covered when the block before ends there. */
  lemma JustBelow(fl: seq<Blk>, i: nat)
    requires Sorted(fl) && 0 < i < |fl|
    ensures fl[i].addr - 1 !in Units(fl)
  {
    hide Units, Sorted;
    UnitsMember(fl, fl[i].addr - 1);
    forall k | 0 <= k < |fl| ensures !(fl[k].addr <= fl[i].addr - 1 < End(fl[k])) {
      if k < i { SortedAt(fl, k, i); } else if k > i { SortedAt(fl, i, k); }
    }
  }

  /** Nothing is covered from the end of the last block on. */
  lemma AboveLast(fl: seq<Blk>, u: int)
    requires Sorted(fl) && u >= End(fl[|fl| - 1])
    ensures u !in Units(fl)
  {
    hide Units, Sorted;
    UnitsMember(fl, u);
    forall k | 0 <= k < |fl| ensures !(fl[k].addr <= u < End(fl[k])) {
      if k < |fl| - 1 { SortedAt(fl, k, |fl| - 1); }
    }
  }

  lemma SameLast(a: seq<Blk>, b: seq<Blk>)
    requires Sorted(a) && Sorted(b) && Units(a) == Units(b) && |a| > 1 && |b| > 1
    ensures a[|a| - 1] == b[|b| - 1]
  {
    var x, y := a[|a| - 1], b[|b| - 1];
    UnitsMember(a, End(x) - 1);
    UnitsMember(b, End(y) - 1);
    if End(x) - 1 >= End(y) { AboveLast(b, End(x) - 1); }
    if End(y) - 1 >= End(x) { AboveLast(a, End(y) - 1); }
    UnitsMember(a, y.addr - 1);
    UnitsMember(b, x.addr - 1);
    JustBelow(a, |a| - 1);
    JustBelow(b, |b| - 1);
  }

  /** Address order without touching blocks makes the list a function of the units it covers. */
  lemma {:induction false} CanonicalList(a: seq<Blk>, b: seq<Blk>)
    requires Sorted(a) && Sorted(b) && a[0] == b[0] && Units(a) == Units(b)
    ensures a == b
    decreases |a|
  {
    hide Units, Seg;
    if |a| == 1 && |b| == 1 {
      assert a == [a[0]] && b == [b[0]];
    } else if |a| == 1 {
      UnitsMember(b, b[|b| - 1].addr);
      UnitsMember(a, b[|b| - 1].addr);
      assert false;
    } else if |b| == 1 {
      UnitsMember(a, a[|a| - 1].addr);
      UnitsMember(b, a[|a| - 1].addr);
      assert false;
    } else {
      SameLast(a, b);
      var a', b' := a[..|a| - 1], b[..|b| - 1];
      SortedPrefix(a, |a| - 1);
      SortedPrefix(b, |b| - 1);
      LastApart(a);
      LastApart(b);
      CanonicalList(a', b');
      assert a == a' + [a[|a| - 1]] && b == b' + [b[|b| - 1]];
    }
  }

  lemma LastApart(a: seq<Blk>)
    requires Sorted(a)
    ensures var l := a[|a| - 1]; Units(a[..|a| - 1]) == Units(a) - Seg(l.addr, l.size)
  {
    var l := a[|a| - 1];
    forall u | u in Seg(l.addr, l.size) ensures u !in Units(a[..|a| - 1]) {
      OnlyBlock(a, |a| - 1, u);
    }
  }
}
