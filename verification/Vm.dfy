/** Two-level page tables and the page allocator. Physical pages and virtual pages are named by
    their numbers (address / PGSIZE); a physical page is 1024 words, and its kernel address is
    the page itself. */
module Vm {
  import opened Basics

  const PGSIZE := 4096
  const ENTRIES := 1024
  /** Page numbers of KERNBASE, EXTMEM, PHYSTOP, DEVSPACE and of the end of the address space. */
  const KERNPAGE := 0x80000
  const EXTPAGE := 0x100
  const PHYSPAGE := 0xE000
  const DEVPAGE := 0xFE000
  const ENDPAGE := 0x100000

  const PTE_W := 2
  const PTE_U := 4

  /** What a physical page is used for; Held is a page its kalloc() caller has not passed on. */
  datatype Owner = Free | Held | Dir | Table(dir: int, i: int) | User(dir: int, vp: int)

  type Mem = map<int, seq<int>>
  type Own = map<int, Owner>

  // ---- entries ----

  predicate Present(e: int) { e % 2 == 1 }

  function FrameOf(e: int): int { e / PGSIZE }

  function FlagsOf(e: int): int { e % PGSIZE }

  /** pa | perm | PTE_P for a page-aligned pa. */
  function MakePte(f: int, perm: int): int {
    f * PGSIZE + (if perm % 2 == 1 then perm else perm + 1)
  }

  function Junk(): int { 0x01010101 }

  lemma OddIsOdd(k: int)
    ensures (2 * k + 1) % 2 == 1
  {
  }

  lemma QuotRem(f: int, k: int)
    requires 0 <= k < PGSIZE
    ensures (f * PGSIZE + k) / PGSIZE == f && (f * PGSIZE + k) % PGSIZE == k
  {
  }

  lemma PteParts(f: int, perm: int)
    requires 0 <= perm < PGSIZE
    ensures Present(MakePte(f, perm)) && FrameOf(MakePte(f, perm)) == f
    ensures FlagsOf(MakePte(f, perm)) == if perm % 2 == 1 then perm else perm + 1
    ensures !Present(0)
  {
    var k := if perm % 2 == 1 then perm else perm + 1;
    var h := k / 2;
    assert k == 2 * h + 1;
    OddIsOdd(2048 * f + h);
    assert MakePte(f, perm) == 2 * (2048 * f + h) + 1;
    QuotRem(f, k);
  }

  /** Directory index and table index of a virtual page. */
  function Pdx(vp: int): int { vp / ENTRIES }

  function Ptx(vp: int): int { vp % ENTRIES }

  function PageAt(i: int, j: int): int { ENTRIES * i + j }

  lemma Indices(vp: int)
    requires 0 <= vp < ENDPAGE
    ensures 0 <= Pdx(vp) < ENTRIES && 0 <= Ptx(vp) < ENTRIES && PageAt(Pdx(vp), Ptx(vp)) == vp
    ensures vp < KERNPAGE <==> Pdx(vp) < ENTRIES / 2
  {
  }

  lemma IndicesOf(i: int, j: int)
    requires 0 <= i < ENTRIES && 0 <= j < ENTRIES
    ensures 0 <= PageAt(i, j) < ENDPAGE && Pdx(PageAt(i, j)) == i && Ptx(PageAt(i, j)) == j
    ensures PageAt(i, j) < KERNPAGE <==> i < ENTRIES / 2
  {
  }

  // ---- the meaning of a directory ----

  /** The entry for a virtual page: 0 when its table is absent. */
  ghost function Entry(mem: Mem, d: int, vp: int): int {
    var i, j := Pdx(vp), Ptx(vp);
    if d in mem && 0 <= i < |mem[d]| && Present(mem[d][i]) && FrameOf(mem[d][i]) in mem
       && 0 <= j < |mem[FrameOf(mem[d][i])]|
    then mem[FrameOf(mem[d][i])][j] else 0
  }

  // ---- who owns which page ----

  ghost predicate Pages(mem: Mem, own: Own) {
    && (forall f :: f in mem <==> f in own)
    && (forall f :: f in mem ==> |mem[f]| == ENTRIES)
  }

  ghost predicate IsDir(own: Own, d: int) { d in own && own[d] == Dir }

  ghost predicate TableAt(mem: Mem, own: Own, d: int, i: int)
    requires Pages(mem, own) && d in mem && 0 <= i < ENTRIES
  {
    Present(mem[d][i]) ==>
      FrameOf(mem[d][i]) in own && own[FrameOf(mem[d][i])] == Table(d, i) && FlagsOf(mem[d][i]) == 7
  }

  ghost predicate UserAt(mem: Mem, own: Own, t: int, d: int, i: int, j: int)
    requires Pages(mem, own) && t in mem && 0 <= j < ENTRIES
  {
    Present(mem[t][j]) ==> FrameOf(mem[t][j]) in own && own[FrameOf(mem[t][j])] == User(d, PageAt(i, j))
  }

  /** A page's label agrees with the page tables, in both directions. */
  ghost predicate FrameOk(mem: Mem, own: Own, f: int)
    requires Pages(mem, own) && f in own
  {
    match own[f]
    case Free => true
    case Held => true
    case Dir => forall i :: 0 <= i < ENTRIES ==> TableAt(mem, own, f, i)
    case Table(d, i) =>
      && 0 <= i < ENTRIES && IsDir(own, d) && Present(mem[d][i]) && FrameOf(mem[d][i]) == f
      && (i < ENTRIES / 2 ==> forall j :: 0 <= j < ENTRIES ==> UserAt(mem, own, f, d, i, j))
    case User(d, vp) =>
      && 0 <= vp < KERNPAGE && IsDir(own, d) && Present(Entry(mem, d, vp)) && FrameOf(Entry(mem, d, vp)) == f
  }

  ghost predicate Inv(mem: Mem, own: Own) {
    Pages(mem, own) && forall f :: f in own ==> FrameOk(mem, own, f)
  }

  /** A table hangs in its directory's slot, with all three permission bits: the table's own entries decide. */
  lemma TableFound(mem: Mem, own: Own, d: int, i: int, t: int)
    requires Inv(mem, own) && t in own && own[t] == Table(d, i)
    ensures IsDir(own, d) && 0 <= i < ENTRIES && FrameOf(mem[d][i]) == t && FlagsOf(mem[d][i]) == 7
  {
    hide Entry, Present, FlagsOf, FrameOf;
    assert FrameOk(mem, own, t);
    assert FrameOk(mem, own, d) && TableAt(mem, own, d, i);
  }

  // ---- the steps that keep it ----

  predicate Zero(p: seq<int>) {
    |p| == ENTRIES && forall j :: 0 <= j < ENTRIES ==> p[j] == 0
  }

  /** A page that no table refers to may change its contents and be Free or Held. */
  lemma RelabelInv(mem: Mem, own: Own, f: int, p: seq<int>, o: Owner)
    requires Inv(mem, own) && f in own && own[f] in {Free, Held} && o in {Free, Held} && |p| == ENTRIES
    ensures Inv(mem[f := p], own[f := o])
    ensures forall d, vp :: IsDir(own, d) ==> Entry(mem[f := p], d, vp) == Entry(mem, d, vp)
  {
    var mem', own' := mem[f := p], own[f := o];
    forall d, vp | IsDir(own, d)
      ensures Entry(mem', d, vp) == Entry(mem, d, vp)
    {
      assert FrameOk(mem, own, d);
      assert 0 <= Pdx(vp) < ENTRIES ==> TableAt(mem, own, d, Pdx(vp));
    }
    hide Entry;
    forall g | g in own'
      ensures FrameOk(mem', own', g)
    {
      assert FrameOk(mem, own, g);
      match own'[g] {
        case Dir =>
          forall i | 0 <= i < ENTRIES ensures TableAt(mem', own', g, i) {
            assert TableAt(mem, own, g, i);
          }
        case Table(d, i) =>
          if i < ENTRIES / 2 {
            forall j | 0 <= j < ENTRIES ensures UserAt(mem', own', g, d, i, j) {
              assert UserAt(mem, own, g, d, i, j);
            }
          }
        case _ =>
      }
    }
  }

  /** A zeroed page becomes a directory that maps nothing. */
  lemma NewDirInv(mem: Mem, own: Own, d: int)
    requires Inv(mem, own) && d in own && own[d] == Held && Zero(mem[d])
    ensures Inv(mem, own[d := Dir])
    ensures forall vp :: Entry(mem, d, vp) == 0
  {
    var own' := own[d := Dir];
    forall g | g in own'
      ensures FrameOk(mem, own', g)
    {
      assert FrameOk(mem, own, g);
      match own'[g] {
        case Dir =>
          forall i | 0 <= i < ENTRIES ensures TableAt(mem, own', g, i) {
            assert g != d ==> TableAt(mem, own, g, i);
          }
        case Table(e, i) =>
          if i < ENTRIES / 2 {
            forall j | 0 <= j < ENTRIES ensures UserAt(mem, own', g, e, i, j) {
              assert UserAt(mem, own, g, e, i, j);
            }
          }
        case _ =>
      }
    }
  }

  /** A zeroed page becomes the table of directory slot i: no translation changes. */
  lemma NewTableInv(mem: Mem, own: Own, d: int, i: int, t: int)
    requires Inv(mem, own) && IsDir(own, d) && 0 <= i < ENTRIES && !Present(mem[d][i])
    requires t in own && own[t] == Held && Zero(mem[t])
    ensures Inv(mem[d := mem[d][i := MakePte(t, PTE_W + PTE_U)]], own[t := Table(d, i)])
    ensures forall e, vp :: IsDir(own, e) ==>
            Entry(mem[d := mem[d][i := MakePte(t, PTE_W + PTE_U)]], e, vp) == Entry(mem, e, vp)
  {
    PteParts(t, PTE_W + PTE_U);
    var mem', own' := mem[d := mem[d][i := MakePte(t, PTE_W + PTE_U)]], own[t := Table(d, i)];
    assert FrameOf(mem'[d][i]) == t && Present(mem'[d][i]) && FlagsOf(mem'[d][i]) == 7;
    hide MakePte, Present, FrameOf, FlagsOf;
    forall e, vp | IsDir(own, e)
      ensures Entry(mem', e, vp) == Entry(mem, e, vp)
    {
      assert FrameOk(mem, own, e);
      assert 0 <= Pdx(vp) < ENTRIES ==> TableAt(mem, own, e, Pdx(vp));
    }
    hide Entry;
    forall g | g in own'
      ensures FrameOk(mem', own', g)
    {
      assert FrameOk(mem, own, g);
      match own'[g] {
        case Dir =>
          forall k | 0 <= k < ENTRIES ensures TableAt(mem', own', g, k) {
            assert TableAt(mem, own, g, k);
          }
        case Table(e, k) =>
          if g == t {
            forall j | 0 <= j < ENTRIES ensures UserAt(mem', own', g, e, k, j) {
              PteParts(0, 0);
            }
          } else if k < ENTRIES / 2 {
            forall j | 0 <= j < ENTRIES ensures UserAt(mem', own', g, e, k, j) {
              assert UserAt(mem, own, g, e, k, j);
            }
          }
        case _ =>
      }
    }
  }

  /** Writing one table entry changes one translation of one directory. */
  lemma EntrySet(mem: Mem, own: Own, d: int, vp: int, t: int, w: int, e: int, vq: int)
    requires Inv(mem, own) && IsDir(own, d) && IsDir(own, e) && 0 <= vp < ENDPAGE && 0 <= vq < ENDPAGE
    requires t in own && own[t] == Table(d, Pdx(vp)) && 0 <= Ptx(vp) < ENTRIES
    ensures Entry(mem[t := mem[t][Ptx(vp) := w]], e, vq) == if e == d && vq == vp then w else Entry(mem, e, vq)
  {
    Indices(vp);
    Indices(vq);
    hide Pdx, Ptx, PageAt, Present, FrameOf;
    assert FrameOk(mem, own, t) && FrameOk(mem, own, e);
    assert TableAt(mem, own, e, Pdx(vq));
  }

  /** One translation of one directory has become w, and nothing else has changed. */
  ghost predicate OneEntry(mem: Mem, mem': Mem, own: Own, d: int, vp: int, w: int) {
    forall e, vq :: IsDir(own, e) && 0 <= vq < ENDPAGE ==>
      Entry(mem', e, vq) == if e == d && vq == vp then w else Entry(mem, e, vq)
  }

  lemma OneEntrySet(mem: Mem, own: Own, d: int, vp: int, t: int, w: int)
    requires Inv(mem, own) && IsDir(own, d) && 0 <= vp < ENDPAGE
    requires t in own && own[t] == Table(d, Pdx(vp)) && 0 <= Ptx(vp) < ENTRIES
    ensures OneEntry(mem, mem[t := mem[t][Ptx(vp) := w]], own, d, vp, w)
  {
    hide Entry;
    var mem' := mem[t := mem[t][Ptx(vp) := w]];
    forall e, vq | IsDir(own, e) && 0 <= vq < ENDPAGE
      ensures Entry(mem', e, vq) == if e == d && vq == vp then w else Entry(mem, e, vq)
    {
      EntrySet(mem, own, d, vp, t, w, e, vq);
    }
  }

  /** mappages() of a held page below KERNBASE: the page becomes a user page. */
  lemma SetUserInv(mem: Mem, own: Own, d: int, vp: int, t: int, f: int, w: int)
    requires Inv(mem, own) && IsDir(own, d) && 0 <= vp < KERNPAGE
    requires t in own && own[t] == Table(d, Pdx(vp)) && 0 <= Ptx(vp) < ENTRIES && !Present(mem[t][Ptx(vp)])
    requires f in own && own[f] == Held && Present(w) && FrameOf(w) == f
    ensures Inv(mem[t := mem[t][Ptx(vp) := w]], own[f := User(d, vp)])
  {
    var mem', own' := mem[t := mem[t][Ptx(vp) := w]], own[f := User(d, vp)];
    OneEntrySet(mem, own, d, vp, t, w);
    Indices(vp);
    hide Entry, Pdx, Ptx, Present, FrameOf;
    forall g | g in own'
      ensures FrameOk(mem', own', g)
    {
      assert FrameOk(mem, own, g);
      match own'[g] {
        case Dir =>
          forall i | 0 <= i < ENTRIES ensures TableAt(mem', own', g, i) {
            assert TableAt(mem, own, g, i);
          }
        case Table(e, i) =>
          if i < ENTRIES / 2 {
            forall j | 0 <= j < ENTRIES ensures UserAt(mem', own', g, e, i, j) {
              assert UserAt(mem, own, g, e, i, j);
            }
          }
        case User(e, vq) =>
          assert g != f ==> !(e == d && vq == vp) by {
            EntryOfTable(mem, own, d, vp, t);
          }
        case _ =>
      }
    }
  }

  lemma EntryOfTable(mem: Mem, own: Own, d: int, vp: int, t: int)
    requires Inv(mem, own) && IsDir(own, d) && 0 <= vp < ENDPAGE && t in own && own[t] == Table(d, Pdx(vp))
    ensures 0 <= Ptx(vp) < ENTRIES && Entry(mem, d, vp) == mem[t][Ptx(vp)]
  {
    Indices(vp);
    assert FrameOk(mem, own, t);
  }

  /** The kernel part of a table refers to pages without owning them. */
  lemma SetKernelInv(mem: Mem, own: Own, d: int, vp: int, t: int, w: int)
    requires Inv(mem, own) && IsDir(own, d) && KERNPAGE <= vp < ENDPAGE
    requires t in own && own[t] == Table(d, Pdx(vp)) && 0 <= Ptx(vp) < ENTRIES
    ensures Inv(mem[t := mem[t][Ptx(vp) := w]], own)
  {
    var mem' := mem[t := mem[t][Ptx(vp) := w]];
    OneEntrySet(mem, own, d, vp, t, w);
    Indices(vp);
    hide Entry, Pdx, Ptx, Present, FrameOf;
    forall g | g in own
      ensures FrameOk(mem', own, g)
    {
      assert FrameOk(mem, own, g);
      match own[g] {
        case Dir =>
          forall i | 0 <= i < ENTRIES ensures TableAt(mem', own, g, i) {
            assert TableAt(mem, own, g, i);
          }
        case Table(e, i) =>
          if i < ENTRIES / 2 {
            forall j | 0 <= j < ENTRIES ensures UserAt(mem', own, g, e, i, j) {
              assert UserAt(mem, own, g, e, i, j);
            }
          }
        case _ =>
      }
    }
  }

  /** A user page whose entry is cleared is held by nobody. */
  lemma ClearInv(mem: Mem, own: Own, d: int, vp: int, t: int)
    requires Inv(mem, own) && IsDir(own, d) && 0 <= vp < KERNPAGE
    requires t in own && own[t] == Table(d, Pdx(vp)) && 0 <= Ptx(vp) < ENTRIES && Present(mem[t][Ptx(vp)])
    ensures var f := FrameOf(mem[t][Ptx(vp)]);
            f in own && own[f] == User(d, vp) && Inv(mem[t := mem[t][Ptx(vp) := 0]], own[f := Held])
  {
    EntryOfTable(mem, own, d, vp, t);
    OneEntrySet(mem, own, d, vp, t, 0);
    Indices(vp);
    PteParts(0, 0);
    assert FrameOk(mem, own, t) && UserAt(mem, own, t, d, Pdx(vp), Ptx(vp));
    var f := FrameOf(mem[t][Ptx(vp)]);
    var mem', own' := mem[t := mem[t][Ptx(vp) := 0]], own[f := Held];
    hide Entry, Pdx, Ptx, Present, FrameOf;
    forall g | g in own'
      ensures FrameOk(mem', own', g)
    {
      assert FrameOk(mem, own, g);
      match own'[g] {
        case Dir =>
          forall i | 0 <= i < ENTRIES ensures TableAt(mem', own', g, i) {
            assert TableAt(mem, own, g, i);
          }
        case Table(e, i) =>
          if i < ENTRIES / 2 {
            forall j | 0 <= j < ENTRIES ensures UserAt(mem', own', g, e, i, j) {
              assert UserAt(mem, own, g, e, i, j);
              ClearedElsewhere(vp, i, j);
            }
          }
        case _ =>
      }
    }
  }

  lemma ClearedElsewhere(vp: int, i: int, j: int)
    requires 0 <= vp < ENDPAGE && 0 <= i < ENTRIES && 0 <= j < ENTRIES
    ensures PageAt(i, j) == vp <==> i == Pdx(vp) && j == Ptx(vp)
  {
    Indices(vp);
    IndicesOf(i, j);
  }

  /** The labels once directory d is given up: it and its tables are held by nobody. */
  ghost function Retired(own: Own, d: int): Own {
    map f | f in own :: if f == d || (own[f].Table? && own[f].dir == d) then Held else own[f]
  }

  lemma RetireInv(mem: Mem, own: Own, d: int)
    requires Inv(mem, own) && IsDir(own, d)
    requires forall vp :: 0 <= vp < KERNPAGE ==> !Present(Entry(mem, d, vp))
    ensures Inv(mem, Retired(own, d))
  {
    hide Entry, Present, FrameOf;
    var own' := Retired(own, d);
    forall g | g in own'
      ensures FrameOk(mem, own', g)
    {
      assert FrameOk(mem, own, g);
      match own'[g] {
        case Dir =>
          forall i | 0 <= i < ENTRIES ensures TableAt(mem, own', g, i) {
            assert TableAt(mem, own, g, i);
          }
        case Table(e, i) =>
          if i < ENTRIES / 2 {
            forall j | 0 <= j < ENTRIES ensures UserAt(mem, own', g, e, i, j) {
              assert UserAt(mem, own, g, e, i, j);
            }
          }
        case _ =>
      }
    }
  }

  // ---- every page has one use ----

  /** A place in the page tables that can refer to a physical page. */
  datatype Slot = DirSlot(d: int) | TableSlot(d: int, i: int) | UserSlot(d: int, vp: int)

  ghost predicate Refers(mem: Mem, own: Own, s: Slot, f: int)
    requires Pages(mem, own)
  {
    && IsDir(own, s.d)
    && match s
       case DirSlot(d) => f == d
       case TableSlot(d, i) => 0 <= i < ENTRIES && Present(mem[d][i]) && FrameOf(mem[d][i]) == f
       case UserSlot(d, vp) => 0 <= vp < KERNPAGE && Present(Entry(mem, d, vp)) && FrameOf(Entry(mem, d, vp)) == f
  }

  ghost function SlotOwner(s: Slot): Owner {
    match s
    case DirSlot(d) => Dir
    case TableSlot(d, i) => Table(d, i)
    case UserSlot(d, vp) => User(d, vp)
  }

  lemma ReferredOwner(mem: Mem, own: Own, s: Slot, f: int)
    requires Inv(mem, own) && Refers(mem, own, s, f)
    ensures f in own && own[f] == SlotOwner(s)
  {
    assert FrameOk(mem, own, s.d);
    match s {
      case DirSlot(d) =>
      case TableSlot(d, i) => assert TableAt(mem, own, d, i);
      case UserSlot(d, vp) =>
        Indices(vp);
        PteParts(0, 0);
        assert TableAt(mem, own, d, Pdx(vp));
        var t := FrameOf(mem[d][Pdx(vp)]);
        assert FrameOk(mem, own, t) && UserAt(mem, own, t, d, Pdx(vp), Ptx(vp));
    }
  }

  /** No two places of any directories refer to the same page, none refers to a free page, and every
      page that is neither free nor held is referred to. */
  lemma OneUse(mem: Mem, own: Own, s: Slot, s': Slot, f: int)
    requires Inv(mem, own)
    ensures Refers(mem, own, s, f) && Refers(mem, own, s', f) ==> s == s'
    ensures Refers(mem, own, s, f) ==> f in own && own[f] != Free && own[f] != Held
    ensures f in own && own[f] != Free && own[f] != Held ==> exists r :: Refers(mem, own, r, f)
  {
    if Refers(mem, own, s, f) {
      ReferredOwner(mem, own, s, f);
    }
    if Refers(mem, own, s', f) {
      ReferredOwner(mem, own, s', f);
    }
    if f in own && own[f] != Free && own[f] != Held {
      assert FrameOk(mem, own, f);
      match own[f] {
        case Dir => assert Refers(mem, own, DirSlot(f), f);
        case Table(d, i) => assert Refers(mem, own, TableSlot(d, i), f);
        case User(d, vp) => assert Refers(mem, own, UserSlot(d, vp), f);
      }
    }
  }

  // ---- the free list ----

  function Head(free: seq<int>, i: nat): int {
    if i < |free| then free[i] else 0
  }

  ghost predicate ListOk(mem: Mem, own: Own, free: seq<int>, head: int)
    requires Pages(mem, own)
  {
    && head == Head(free, 0)
    && (forall i :: 0 <= i < |free| ==> free[i] in own && free[i] != 0 && own[free[i]] == Free
                                        && mem[free[i]][0] == Head(free, i + 1))
    && (forall i, j :: 0 <= i < j < |free| ==> free[i] != free[j])
    && (forall f :: f in own && own[f] == Free ==> f in free)
  }

  /** Writes outside the free pages do not touch the list. */
  lemma ListFrame(mem: Mem, own: Own, mem': Mem, own': Own, free: seq<int>, head: int)
    requires Pages(mem, own) && Pages(mem', own') && ListOk(mem, own, free, head)
    requires forall f :: f in own <==> f in own'
    requires forall f :: f in own ==> (own[f] == Free <==> own'[f] == Free)
    requires forall f :: f in own && own[f] == Free ==> mem'[f] == mem[f]
    ensures ListOk(mem', own', free, head)
  {
  }

  lemma ListPop(mem: Mem, own: Own, free: seq<int>, head: int)
    requires Pages(mem, own) && ListOk(mem, own, free, head) && free != []
    ensures head in mem && own[head] == Free && ListOk(mem, own[head := Held], free[1..], mem[head][0])
  {
    assert free[0] == head;
    var own' := own[head := Held];
    forall f | f in own' && own'[f] == Free
      ensures f in free[1..]
    {
      assert f in free;
    }
  }

  lemma ListPush(mem: Mem, own: Own, free: seq<int>, head: int, v: int, p: seq<int>)
    requires Pages(mem, own) && ListOk(mem, own, free, head)
    requires v in own && v != 0 && own[v] != Free && |p| == ENTRIES && p[0] == head
    ensures Pages(mem[v := p], own[v := Free]) && ListOk(mem[v := p], own[v := Free], [v] + free, v)
  {
    var mem', own', free' := mem[v := p], own[v := Free], [v] + free;
    forall i | 0 <= i < |free'|
      ensures free'[i] in own' && free'[i] != 0 && own'[free'[i]] == Free && mem'[free'[i]][0] == Head(free', i + 1)
    {
      if i > 0 {
        assert free'[i] == free[i - 1] && Head(free', i + 1) == Head(free, i);
      } else {
        assert Head(free', 1) == Head(free, 0);
      }
    }
  }

  // ---- how many pages tables take ----

  /** The slots of directory d that have a table. */
  ghost function Tables(mem: Mem, d: int): set<int> {
    set i | 0 <= i < ENTRIES && d in mem && i < |mem[d]| && Present(mem[d][i])
  }

  /** What mapping vp takes for its table. */
  ghost function TableNeed(ts: set<int>, vp: int): nat {
    if Pdx(vp) in ts then 0 else 1
  }

  /** The slots that the virtual pages from lo up to hi fall into. */
  ghost function PdxOf(lo: int, hi: int): set<int>
    decreases hi - lo
  {
    if hi <= lo then {} else PdxOf(lo, hi - 1) + {Pdx(hi - 1)}
  }

  /** How many tables the pages from lo up to hi need on top of the tables ts. */
  ghost function TablesNeeded(ts: set<int>, lo: int, hi: int): (n: nat) {
    SizeGrows(ts, ts + PdxOf(lo, hi));
    |ts + PdxOf(lo, hi)| - |ts|
  }

  lemma SizeGrows(a: set<int>, b: set<int>)
    requires a <= b
    ensures |a| <= |b|
  {
    assert b == a + (b - a);
  }

  lemma TablesStep(ts: set<int>, lo: int, hi: int)
    requires lo <= hi
    ensures PdxOf(lo, hi + 1) == PdxOf(lo, hi) + {Pdx(hi)} && ts + PdxOf(lo, hi + 1) == ts + PdxOf(lo, hi) + {Pdx(hi)}
    ensures TablesNeeded(ts, lo, hi + 1) == TablesNeeded(ts, lo, hi) + TableNeed(ts + PdxOf(lo, hi), hi)
  {
    hide Pdx;
    var t := ts + PdxOf(lo, hi);
    assert ts + PdxOf(lo, hi + 1) == t + {Pdx(hi)};
    if Pdx(hi) in t {
      assert t + {Pdx(hi)} == t;
    }
  }

  lemma {:induction false} TablesGrow(ts: set<int>, lo: int, hi: int, hi': int)
    requires lo <= hi <= hi'
    ensures TablesNeeded(ts, lo, hi) <= TablesNeeded(ts, lo, hi')
    decreases hi' - hi
  {
    if hi < hi' {
      TablesGrow(ts, lo, hi, hi' - 1);
      TablesStep(ts, lo, hi' - 1);
    }
  }

  lemma {:induction false} PdxRange(lo: int, hi: int, i: int)
    requires lo <= hi
    ensures i in PdxOf(lo, hi) <==> lo < hi && Pdx(lo) <= i <= Pdx(hi - 1)
    decreases hi - lo
  {
    if lo < hi {
      PdxRange(lo, hi - 1, i);
    }
  }

  /** The integers from lo up to hi. */
  ghost function Ints(lo: int, hi: int): (r: set<int>)
    ensures |r| == (if hi <= lo then 0 else hi - lo) && forall i :: i in r <==> lo <= i < hi
    decreases hi - lo
  {
    if hi <= lo then {} else Ints(lo, hi - 1) + {hi - 1}
  }

  // ---- what an operation leaves alone ----

  ghost predicate SameEntries(mem: Mem, mem': Mem, own: Own) {
    forall e, vq :: IsDir(own, e) && 0 <= vq < ENDPAGE ==> Entry(mem', e, vq) == Entry(mem, e, vq)
  }

  /** The contents of user pages, and of pages their callers hold. */
  ghost predicate SameData(mem: Mem, mem': Mem, own: Own) {
    forall f :: f in own && (own[f] == Held || own[f].User?) ==> f in mem && f in mem' && mem'[f] == mem[f]
  }

  ghost predicate Belongs(o: Owner, f: int, d: int) {
    match o
    case Dir => f == d
    case Table(e, _) => e == d
    case User(e, _) => e == d
    case _ => false
  }

  /** Pages have only gone from the free list to directory d. */
  ghost predicate Grew(own: Own, own': Own, d: int) {
    && (forall f :: f in own <==> f in own')
    && (forall f :: f in own ==> own'[f] == own[f] || (own[f] == Free && Belongs(own'[f], f, d)))
  }

  /** Directory d may have got tables; every translation and all data are as before. */
  ghost predicate Extended(mem: Mem, own: Own, mem': Mem, own': Own, d: int) {
    SameEntries(mem, mem', own) && SameData(mem, mem', own) && Grew(own, own', d)
  }

  lemma NewTableSlot(mem: Mem, d: int, i: int, t: int, page: seq<int>)
    requires d in mem && |mem[d]| == ENTRIES && 0 <= i < ENTRIES && t != d
    ensures Tables(mem[t := page][d := mem[d][i := MakePte(t, PTE_W + PTE_U)]], d) == Tables(mem, d) + {i}
  {
    PteParts(t, PTE_W + PTE_U);
    hide Present, MakePte;
  }

  /** Writing other pages leaves the slots of d alone. */
  lemma SlotsKept(mem: Mem, d: int, t: int, page: seq<int>)
    requires d in mem && t != d
    ensures Tables(mem[t := page], d) == Tables(mem, d)
  {
  }

  lemma SameRefl(mem: Mem, own: Own)
    requires Pages(mem, own)
    ensures SameEntries(mem, mem, own) && SameData(mem, mem, own)
  {
  }

  lemma ExtendedRefl(mem: Mem, own: Own, d: int)
    requires Pages(mem, own)
    ensures Extended(mem, own, mem, own, d)
  {
  }

  lemma ExtendedAt(mem: Mem, own: Own, mem': Mem, own': Own, d: int, vp: int)
    requires Extended(mem, own, mem', own', d) && IsDir(own, d) && 0 <= vp < ENDPAGE
    ensures Entry(mem', d, vp) == Entry(mem, d, vp)
    ensures forall f :: f in own && own[f] != Free ==> f in own' && own'[f] == own[f]
  {
  }

  lemma NewTableStep(mem: Mem, own: Own, d: int, i: int, t: int, page: seq<int>)
    requires Inv(mem, own) && IsDir(own, d) && 0 <= i < ENTRIES && !Present(mem[d][i])
    requires t in own && own[t] == Free && Zero(page)
    ensures Inv(mem[t := page][d := mem[d][i := MakePte(t, PTE_W + PTE_U)]], own[t := Table(d, i)])
    ensures Extended(mem, own, mem[t := page][d := mem[d][i := MakePte(t, PTE_W + PTE_U)]], own[t := Table(d, i)], d)
  {
    hide Entry, Present, FrameOf, MakePte;
    RelabelInv(mem, own, t, page, Held);
    NewTableInv(mem[t := page], own[t := Held], d, i, t);
    assert own[t := Held][t := Table(d, i)] == own[t := Table(d, i)];
    hide FrameOk;
  }

  datatype MapResult = Mapped | NoMem | Remap

  /** The effect of mapping vp to page f. */
  ghost predicate MappedTo(mem: Mem, own: Own, mem': Mem, own': Own, d: int, vp: int, f: int, perm: int) {
    && OneEntry(mem, mem', own, d, vp, MakePte(f, perm)) && SameData(mem, mem', own)
    && Grew(if vp < KERNPAGE then own[f := Free] else own, own', d)
    && (vp < KERNPAGE ==> f in own' && own'[f] == User(d, vp))
  }

  lemma MapStep(mem0: Mem, own0: Own, mem: Mem, own: Own, d: int, vp: int, t: int, f: int, perm: int)
    requires Pages(mem0, own0) && Extended(mem0, own0, mem, own, d) && IsDir(own0, d)
    requires Inv(mem, own) && 0 <= vp < ENDPAGE && 0 <= perm < PGSIZE
    requires t in own && own[t] == Table(d, Pdx(vp)) && 0 <= Ptx(vp) < ENTRIES && !Present(mem[t][Ptx(vp)])
    requires vp < KERNPAGE ==> f in own0 && own0[f] == Held
    ensures var mem' := mem[t := mem[t][Ptx(vp) := MakePte(f, perm)]];
            var own' := if vp < KERNPAGE then own[f := User(d, vp)] else own;
            Inv(mem', own') && MappedTo(mem0, own0, mem', own', d, vp, f, perm)
  {
    PteParts(f, perm);
    OneEntrySet(mem, own, d, vp, t, MakePte(f, perm));
    hide Entry, Pdx, Ptx, Present, FrameOf, MakePte;
    if vp < KERNPAGE {
      SetUserInv(mem, own, d, vp, t, f, MakePte(f, perm));
    } else {
      SetKernelInv(mem, own, d, vp, t, MakePte(f, perm));
    }
    hide Inv;
    forall e | IsDir(own0, e) ensures IsDir(own, e) {}
  }

  /** The effect of mapping the m kernel pages from vp to the pages from f on. */
  ghost predicate RangeMapped(mem: Mem, own: Own, mem': Mem, own': Own, d: int, vp: int, m: nat, f: int, perm: int) {
    && SameData(mem, mem', own) && Grew(own, own', d)
    && (forall e, vq :: IsDir(own, e) && 0 <= vq < ENDPAGE ==>
          Entry(mem', e, vq) == if e == d && vp <= vq < vp + m then MakePte(f + (vq - vp), perm) else Entry(mem, e, vq))
  }

  lemma TablesNone(ts: set<int>, lo: int)
    ensures ts + PdxOf(lo, lo) == ts && TablesNeeded(ts, lo, lo) == 0
  {
  }

  lemma RangeDir(mem0: Mem, own0: Own, mem: Mem, own: Own, d: int, vp: int, m: nat, f: int, perm: int)
    requires RangeMapped(mem0, own0, mem, own, d, vp, m, f, perm) && IsDir(own0, d)
    ensures IsDir(own, d)
  {
  }

  lemma RangeNone(mem: Mem, own: Own, d: int, vp: int, f: int, perm: int)
    requires Pages(mem, own)
    ensures RangeMapped(mem, own, mem, own, d, vp, 0, f, perm)
  {
  }

  lemma RangeStep(mem0: Mem, own0: Own, mem: Mem, own: Own, mem': Mem, own': Own, d: int, vp: int, m: nat, f: int,
                  perm: int)
    requires RangeMapped(mem0, own0, mem, own, d, vp, m, f, perm) && IsDir(own0, d)
    requires KERNPAGE <= vp && vp + m < ENDPAGE
    ensures IsDir(own, d) && Entry(mem, d, vp + m) == Entry(mem0, d, vp + m)
    ensures MappedTo(mem, own, mem', own', d, vp + m, f + m, perm) ==>
              RangeMapped(mem0, own0, mem', own', d, vp, m + 1, f, perm)
  {
    hide Entry, MakePte;
    forall e | IsDir(own0, e) ensures IsDir(own, e) {}
  }

  // ---- unmapping ----

  function Up(sz: nat): nat { (sz + PGSIZE - 1) / PGSIZE }

  lemma UpLess(a: int, sz: nat)
    ensures a * PGSIZE < sz <==> a < Up(sz)
  {
  }

  lemma UpMonotone(a: nat, b: nat)
    ensures a <= b ==> Up(a) <= Up(b)
    ensures b <= KERNPAGE * PGSIZE ==> Up(b) <= KERNPAGE
  {
  }

  /** One user page of d has been freed and its entry cleared. */
  ghost predicate Unmapped(mem: Mem, own: Own, mem': Mem, own': Own, d: int, vp: int) {
    && var f := FrameOf(Entry(mem, d, vp));
    && f in own && own[f] == User(d, vp) && own' == own[f := Free]
    && OneEntry(mem, mem', own, d, vp, 0) && SameData(mem, mem', own')
  }

  lemma UnmapStep(mem: Mem, own: Own, d: int, vp: int, t: int, p: seq<int>)
    requires Inv(mem, own) && IsDir(own, d) && 0 <= vp < KERNPAGE && |p| == ENTRIES
    requires t in own && own[t] == Table(d, Pdx(vp)) && 0 <= Ptx(vp) < ENTRIES && Present(mem[t][Ptx(vp)])
    ensures var f := FrameOf(mem[t][Ptx(vp)]);
            && f in own && f != t
            && var mem', own' := mem[f := p][t := mem[t][Ptx(vp) := 0]], own[f := Free];
            && Inv(mem', own') && Unmapped(mem, own, mem', own', d, vp)
  {
    ClearInv(mem, own, d, vp, t);
    OneEntrySet(mem, own, d, vp, t, 0);
    EntryOfTable(mem, own, d, vp, t);
    var f := FrameOf(mem[t][Ptx(vp)]);
    hide Entry, Present, FrameOf;
    var mem1, own1 := mem[t := mem[t][Ptx(vp) := 0]], own[f := Held];
    RelabelInv(mem1, own1, f, p, Free);
    assert mem1[f := p] == mem[f := p][t := mem[t][Ptx(vp) := 0]];
    assert own1[f := Free] == own[f := Free];
    hide Inv;
    forall e | IsDir(own, e) ensures IsDir(own1, e) {}
  }

  ghost predicate Within(o: Owner, d: int, lo: int, hi: int) {
    o.User? && o.dir == d && lo <= o.vp < hi
  }

  /** The user pages of d mapped from page lo up to page hi have been freed; nothing else has changed. */
  ghost predicate Freed(mem: Mem, own: Own, mem': Mem, own': Own, d: int, lo: int, hi: int) {
    && SameData(mem, mem', own')
    && (forall f :: f in own <==> f in own')
    && (forall f :: f in own ==> own'[f] == if Within(own[f], d, lo, hi) then Free else own[f])
    && (forall e, vq :: IsDir(own, e) && 0 <= vq < ENDPAGE ==>
          Entry(mem', e, vq) ==
          if e == d && lo <= vq < hi && Present(Entry(mem, e, vq)) then 0 else Entry(mem, e, vq))
  }

  lemma FreedNone(mem: Mem, own: Own, d: int, lo: int, hi: int)
    requires Pages(mem, own) && hi <= lo
    ensures Freed(mem, own, mem, own, d, lo, hi)
  {
  }

  /** Pages that are not mapped need no freeing. */
  lemma FreedSkip(mem0: Mem, own0: Own, mem: Mem, own: Own, d: int, lo: int, hi: int, hi': int)
    requires Inv(mem0, own0) && Freed(mem0, own0, mem, own, d, lo, hi) && hi <= hi' && 0 <= lo
    requires forall vq :: hi <= vq < hi' ==> !Present(Entry(mem0, d, vq))
    ensures Freed(mem0, own0, mem, own, d, lo, hi')
  {
    hide Entry, Present;
    forall f | f in own0 && Within(own0[f], d, lo, hi')
      ensures Within(own0[f], d, lo, hi)
    {
      assert FrameOk(mem0, own0, f);
    }
  }

  lemma FreedAt(mem0: Mem, own0: Own, mem: Mem, own: Own, d: int, lo: int, hi: int, vq: int)
    requires Freed(mem0, own0, mem, own, d, lo, hi) && IsDir(own0, d) && 0 <= lo && hi <= vq < ENDPAGE && 0 <= vq
    ensures Entry(mem, d, vq) == Entry(mem0, d, vq) && IsDir(own, d)
  {
  }

  /** The jump over an absent table passes no mapped page. */
  lemma JumpSkips(mem0: Mem, own0: Own, mem: Mem, own: Own, d: int, lo: int, a: int)
    requires Inv(mem0, own0) && Inv(mem, own) && IsDir(own0, d) && IsDir(own, d) && 0 <= lo <= a < KERNPAGE
    requires Freed(mem0, own0, mem, own, d, lo, a)
    requires 0 <= Pdx(a) < ENTRIES && !Present(mem[d][Pdx(a)])
    ensures PageAt(Pdx(a) + 1, 0) > a
    ensures forall b :: a < b <= PageAt(Pdx(a) + 1, 0) ==> Freed(mem0, own0, mem, own, d, lo, b)
  {
    Indices(a);
    forall b | a < b <= PageAt(Pdx(a) + 1, 0)
      ensures Freed(mem0, own0, mem, own, d, lo, b)
    {
      forall vq | a <= vq < b
        ensures !Present(Entry(mem0, d, vq))
      {
        assert Pdx(vq) == Pdx(a);
        Present0(mem, own, d, vq, 0);
        FreedAt(mem0, own0, mem, own, d, lo, a, vq);
      }
      hide Freed, Entry;
      FreedSkip(mem0, own0, mem, own, d, lo, a, b);
    }
  }

  /** A turn that finds the entry absent. */
  lemma FreedNext(mem0: Mem, own0: Own, mem: Mem, own: Own, d: int, lo: int, a: int)
    requires Inv(mem0, own0) && Freed(mem0, own0, mem, own, d, lo, a) && IsDir(own0, d) && 0 <= lo <= a < KERNPAGE
    ensures !Present(Entry(mem, d, a)) ==> Freed(mem0, own0, mem, own, d, lo, a + 1)
  {
    FreedAt(mem0, own0, mem, own, d, lo, a, a);
    hide Freed, Entry;
    if !Present(Entry(mem, d, a)) {
      FreedSkip(mem0, own0, mem, own, d, lo, a, a + 1);
    }
  }

  /** A turn that frees a page. */
  lemma FreedStep(mem0: Mem, own0: Own, mem: Mem, own: Own, mem': Mem, own': Own, d: int, lo: int, a: int)
    requires Inv(mem0, own0) && Freed(mem0, own0, mem, own, d, lo, a) && IsDir(own0, d) && 0 <= lo <= a < KERNPAGE
    requires Unmapped(mem, own, mem', own', d, a) && Present(Entry(mem, d, a))
    ensures Freed(mem0, own0, mem', own', d, lo, a + 1)
  {
    hide Entry, Present, FrameOf;
    var f := FrameOf(Entry(mem, d, a));
    assert own0[f] == User(d, a);
    forall g | g in own0 && own0[g] == User(d, a)
      ensures g == f
    {
      assert FrameOk(mem0, own0, g);
    }
    forall e | IsDir(own0, e) ensures IsDir(own, e) {}
  }

  lemma FreedDir(mem0: Mem, own0: Own, mem: Mem, own: Own, d: int, lo: int, hi: int, b: int)
    requires Freed(mem0, own0, mem, own, d, lo, b) && IsDir(own0, d)
    ensures IsDir(own, d)
  {
  }

  // ---- giving up a directory ----

  lemma FreedAll(mem0: Mem, own0: Own, mem: Mem, own: Own, d: int)
    requires Inv(mem0, own0) && Freed(mem0, own0, mem, own, d, Up(0), Up(KERNPAGE * PGSIZE)) && IsDir(own0, d)
    ensures IsDir(own, d)
    ensures forall vp :: 0 <= vp < KERNPAGE ==> !Present(Entry(mem, d, vp))
  {
    PteParts(0, 0);
    hide Entry, Present;
  }

  /** While freevm() runs: tables below index i are free, the others and the directory are held. */
  ghost predicate Emptied(mem1: Mem, own1: Own, mem: Mem, own: Own, d: int, i: int) {
    && SameData(mem1, mem, own1)
    && (forall f :: f in own1 <==> f in own)
    && (forall f :: f in own1 ==>
          own[f] == if f == d then Held
                    else if own1[f].Table? && own1[f].dir == d then (if own1[f].i < i then Free else Held)
                    else own1[f])
    && d in mem1 && d in mem && mem[d] == mem1[d]
    && (forall e, vq :: IsDir(own1, e) && e != d && 0 <= vq < ENDPAGE ==> Entry(mem, e, vq) == Entry(mem1, e, vq))
  }

  lemma RetiredNone(mem: Mem, own: Own, d: int)
    requires Inv(mem, own) && IsDir(own, d)
    ensures Emptied(mem, own, mem, Retired(own, d), d, 0)
  {
    hide Entry;
    forall f | f in own && own[f].Table?
      ensures own[f].i >= 0
    {
      assert FrameOk(mem, own, f);
    }
  }

  lemma EmptiedAt(mem1: Mem, own1: Own, mem: Mem, own: Own, d: int, i: int)
    requires Inv(mem1, own1) && IsDir(own1, d) && Emptied(mem1, own1, mem, own, d, i) && 0 <= i < ENTRIES
    ensures d in mem && |mem[d]| == ENTRIES
    ensures Present(mem[d][i]) ==>
              var t := FrameOf(mem[d][i]); t in own && t != d && own1[t] == Table(d, i) && own[t] == Held
  {
    hide Entry;
    assert FrameOk(mem1, own1, d) && TableAt(mem1, own1, d, i);
  }

  lemma EmptiedSkip(mem1: Mem, own1: Own, mem: Mem, own: Own, d: int, i: int)
    requires Inv(mem1, own1) && IsDir(own1, d) && Emptied(mem1, own1, mem, own, d, i) && 0 <= i < ENTRIES
    requires |mem[d]| == ENTRIES && !Present(mem[d][i])
    ensures Emptied(mem1, own1, mem, own, d, i + 1)
  {
    hide Entry, Present, FrameOf;
    forall f | f in own1 && own1[f].Table? && own1[f].dir == d
      ensures own1[f].i != i
    {
      assert FrameOk(mem1, own1, f);
    }
  }

  lemma EmptiedStep(mem1: Mem, own1: Own, mem: Mem, own: Own, mem': Mem, own': Own, d: int, i: int, t: int)
    requires Inv(mem1, own1) && IsDir(own1, d) && Emptied(mem1, own1, mem, own, d, i) && 0 <= i < ENTRIES
    requires t in own && t != d && own1[t] == Table(d, i) && own' == own[t := Free]
    requires t in mem' && mem' == mem[t := mem'[t]]
    requires forall e, vq :: IsDir(own, e) ==> Entry(mem', e, vq) == Entry(mem, e, vq)
    ensures Emptied(mem1, own1, mem', own', d, i + 1)
  {
    hide Entry;
    forall f | f in own1 && own1[f] == Table(d, i)
      ensures f == t
    {
      assert FrameOk(mem1, own1, f) && FrameOk(mem1, own1, t);
    }
    forall e | IsDir(own1, e) && e != d ensures IsDir(own, e) {}
  }

  /** Directory d is gone: its pages are free, and everything else is as before. */
  ghost predicate Destroyed(mem: Mem, own: Own, mem': Mem, own': Own, d: int) {
    && SameData(mem, mem', own')
    && (forall f :: f in own <==> f in own')
    && (forall f :: f in own ==> own'[f] == if Belongs(own[f], f, d) then Free else own[f])
    && (forall e, vq :: IsDir(own, e) && e != d && 0 <= vq < ENDPAGE ==> Entry(mem', e, vq) == Entry(mem, e, vq))
  }

  lemma DestroyedAll(mem0: Mem, own0: Own, mem1: Mem, own1: Own, mem2: Mem, own2: Own, mem: Mem, own: Own, d: int)
    requires Inv(mem0, own0) && IsDir(own0, d) && Freed(mem0, own0, mem1, own1, d, Up(0), Up(KERNPAGE * PGSIZE))
    requires Inv(mem1, own1) && Emptied(mem1, own1, mem2, own2, d, ENTRIES)
    requires own == own2[d := Free] && d in mem && mem == mem2[d := mem[d]]
    requires forall e, vq :: IsDir(own2, e) ==> Entry(mem, e, vq) == Entry(mem2, e, vq)
    ensures Destroyed(mem0, own0, mem, own, d)
  {
    hide Entry, Present, FrameOf;
    assert Up(0) == 0 && Up(KERNPAGE * PGSIZE) == KERNPAGE;
    forall f | f in own0
      ensures own[f] == if Belongs(own0[f], f, d) then Free else own0[f]
    {
      assert FrameOk(mem0, own0, f) && FrameOk(mem1, own1, f);
    }
    forall e | IsDir(own0, e) && e != d ensures IsDir(own1, e) && IsDir(own2, e) {}
  }

  // ---- the kernel's mappings ----

  datatype Kmap = Kmap(virt: int, phys: int, n: nat, perm: int)

  /** `data`, the first page of the kernel's data, lies inside the kernel image. */
  predicate DataOk(data: int) { KERNPAGE + EXTPAGE < data < KERNPAGE + PHYSPAGE }

  /** The four rows of kmap[]; the last ends at the end of the address space. */
  function KmapAt(data: int, k: int): (m: Kmap)
    requires DataOk(data) && 0 <= k < 4
    ensures KERNPAGE <= m.virt && 1 <= m.n && m.virt + m.n <= ENDPAGE && 0 <= m.perm < PGSIZE
  {
    if k == 0 then Kmap(KERNPAGE, 0, EXTPAGE, PTE_W)
    else if k == 1 then Kmap(KERNPAGE + EXTPAGE, EXTPAGE, data - KERNPAGE - EXTPAGE, 0)
    else if k == 2 then Kmap(data, data - KERNPAGE, PHYSPAGE - (data - KERNPAGE), PTE_W)
    else Kmap(DEVPAGE, DEVPAGE, ENDPAGE - DEVPAGE, PTE_W)
  }

  /** The row among the first k that covers vp, if any. */
  function Row(data: int, k: int, vp: int): int
    requires DataOk(data) && 0 <= k <= 4
  {
    if k == 0 then -1
    else if KmapAt(data, k - 1).virt <= vp < KmapAt(data, k - 1).virt + KmapAt(data, k - 1).n then k - 1
    else Row(data, k - 1, vp)
  }

  /** The entry that the first k rows of kmap[] prescribe. */
  function KernelEntry(data: int, k: int, vp: int): int
    requires DataOk(data) && 0 <= k <= 4
  {
    var r := Row(data, k, vp);
    if 0 <= r < 4 then MakePte(KmapAt(data, r).phys + (vp - KmapAt(data, r).virt), KmapAt(data, r).perm) else 0
  }

  lemma {:induction false} RowAbove(data: int, k: int, j: int, vp: int)
    requires DataOk(data) && 0 <= k <= j < 4
    requires vp < KERNPAGE || KmapAt(data, j).virt <= vp < KmapAt(data, j).virt + KmapAt(data, j).n
    ensures Row(data, k, vp) == -1
    decreases k
  {
    if k > 0 {
      RowAbove(data, k - 1, j, vp);
    }
  }

  /** The rows do not overlap and leave the user part alone. */
  lemma RowsDisjoint(data: int, k: int, vp: int)
    requires DataOk(data) && 0 <= k < 4
    ensures KmapAt(data, k).virt <= vp < KmapAt(data, k).virt + KmapAt(data, k).n ==> KernelEntry(data, k, vp) == 0
    ensures vp < KERNPAGE ==> KernelEntry(data, k, vp) == 0
  {
    if vp < KERNPAGE || KmapAt(data, k).virt <= vp < KmapAt(data, k).virt + KmapAt(data, k).n {
      RowAbove(data, k, k, vp);
    }
  }

  // the bits of an entry
  predicate Writable(e: int) { e / 2 % 2 == 1 }

  predicate UserMay(e: int) { e / 4 % 2 == 1 }

  /** The kernel's part of an address space: physical memory from KERNBASE on, the devices at their own addresses, and
      nothing else; writable except for the kernel's text; none of it for user mode. */
  predicate KernelLayout(e: int, data: int, vp: int) {
    && (Present(e) <==> KERNPAGE <= vp < KERNPAGE + PHYSPAGE || DEVPAGE <= vp < ENDPAGE)
    && (Present(e) && vp < DEVPAGE ==> FrameOf(e) == vp - KERNPAGE)
    && (Present(e) && vp >= DEVPAGE ==> FrameOf(e) == vp)
    && (Present(e) ==> !UserMay(e) && (Writable(e) <==> !(KERNPAGE + EXTPAGE <= vp < data)))
  }

  lemma Halves(q: int)
    ensures (2 * q + 1) / 2 == q && (2 * q) % 2 == 0 && (2 * q + 1) % 2 == 1
  {
  }

  lemma Quarters(q: int)
    ensures (4 * q + 1) / 4 == q && (4 * q + 3) / 4 == q
  {
  }

  lemma PteBits(f: int)
    ensures Writable(MakePte(f, PTE_W)) && !Writable(MakePte(f, 0))
    ensures !UserMay(MakePte(f, PTE_W)) && !UserMay(MakePte(f, 0))
  {
    Halves(2048 * f + 1);
    Halves(2048 * f);
    Quarters(1024 * f);
    Halves(1024 * f);
    Halves(512 * f);
  }

  /** kmap[]'s four rows amount to that layout. */
  lemma KernelEntryIs(data: int, vp: int)
    requires DataOk(data) && 0 <= vp < ENDPAGE
    ensures KernelLayout(KernelEntry(data, 4, vp), data, vp)
  {
    hide MakePte, Present, FrameOf, Writable, UserMay;
    var r := Row(data, 4, vp);
    PteParts(0, 0);
    if 0 <= r < 4 {
      var row := KmapAt(data, r);
      PteParts(row.phys + (vp - row.virt), row.perm);
      PteBits(row.phys + (vp - row.virt));
    }
    RowIs(data, vp);
  }

  lemma RowIs(data: int, vp: int)
    requires DataOk(data)
    ensures Row(data, 4, vp) == if DEVPAGE <= vp < ENDPAGE then 3
                                else if data <= vp < KERNPAGE + PHYSPAGE then 2
                                else if KERNPAGE + EXTPAGE <= vp < data then 1
                                else if KERNPAGE <= vp < KERNPAGE + EXTPAGE then 0 else -1
  {
    assert Row(data, 3, vp) == if data <= vp < KERNPAGE + PHYSPAGE then 2 else Row(data, 2, vp);
    assert Row(data, 1, vp) == if KERNPAGE <= vp < KERNPAGE + EXTPAGE then 0 else -1;
  }

  /** The directory slots that the first k rows of kmap[] fall into. */
  ghost function RowPdx(data: int, k: int): set<int>
    requires DataOk(data) && 0 <= k <= 4
  {
    if k == 0 then {}
    else
      var row := KmapAt(data, k - 1);
      RowPdx(data, k - 1) + PdxOf(row.virt, row.virt + row.n)
  }

  /** A directory, 56 tables for the kernel's part of physical memory and 8 for the devices. */
  const KVMPAGES: nat := 65

  lemma RowPdxNone(data: int)
    requires DataOk(data)
    ensures RowPdx(data, 0) == {}
  {
  }

  lemma RowPdxStep(data: int, k: int)
    requires DataOk(data) && 0 <= k < 4
    ensures var m := KmapAt(data, k);
            && RowPdx(data, k + 1) == RowPdx(data, k) + PdxOf(m.virt, m.virt + m.n)
            && TablesNeeded(RowPdx(data, k), m.virt, m.virt + m.n) == |RowPdx(data, k + 1)| - |RowPdx(data, k)|
  {
  }

  lemma RowPdxIs(data: int, i: int)
    requires DataOk(data)
    ensures i in RowPdx(data, 4) <==> 512 <= i < 568 || 1016 <= i < 1024
  {
    var r0, r1, r2, r3 := KmapAt(data, 0), KmapAt(data, 1), KmapAt(data, 2), KmapAt(data, 3);
    PdxRange(r0.virt, r0.virt + r0.n, i);
    PdxRange(r1.virt, r1.virt + r1.n, i);
    PdxRange(r2.virt, r2.virt + r2.n, i);
    PdxRange(r3.virt, r3.virt + r3.n, i);
    hide PdxOf;
    assert RowPdx(data, 4) == RowPdx(data, 3) + PdxOf(r3.virt, r3.virt + r3.n);
    assert RowPdx(data, 3) == RowPdx(data, 2) + PdxOf(r2.virt, r2.virt + r2.n);
    assert RowPdx(data, 2) == RowPdx(data, 1) + PdxOf(r1.virt, r1.virt + r1.n);
    assert RowPdx(data, 1) == RowPdx(data, 0) + PdxOf(r0.virt, r0.virt + r0.n);
  }

  lemma RowPdxSizes(data: int)
    requires DataOk(data)
    ensures |RowPdx(data, 4)| == KVMPAGES - 1 && forall k :: 0 <= k <= 4 ==> |RowPdx(data, k)| <= KVMPAGES - 1
  {
    hide RowPdx, KmapAt;
    RowPdxAll(data);
    forall k | 0 <= k <= 4 ensures |RowPdx(data, k)| <= 64 {
      RowPdxGrows(data, k);
      SizeGrows(RowPdx(data, k), RowPdx(data, 4));
    }
  }

  lemma RowPdxAll(data: int)
    requires DataOk(data)
    ensures |RowPdx(data, 4)| == 64
  {
    hide RowPdx, KmapAt;
    forall i ensures i in RowPdx(data, 4) <==> 512 <= i < 568 || 1016 <= i < 1024 {
      RowPdxIs(data, i);
    }
    TwoRanges(RowPdx(data, 4), 512, 568, 1016, 1024);
  }

  lemma TwoRanges(s: set<int>, a: int, b: int, c: int, d: int)
    requires a <= b <= c <= d && forall i :: i in s <==> a <= i < b || c <= i < d
    ensures |s| == (b - a) + (d - c)
  {
    var x, y := Ints(a, b), Ints(c, d);
    hide Ints;
    assert s == x + y && x !! y;
  }

  lemma {:induction false} RowPdxGrows(data: int, k: int)
    requires DataOk(data) && 0 <= k <= 4
    ensures RowPdx(data, k) <= RowPdx(data, 4)
    decreases 4 - k
  {
    if k < 4 {
      RowPdxStep(data, k);
      RowPdxGrows(data, k + 1);
    }
  }

  lemma NoSlots(mem: Mem, d: int, page: seq<int>)
    requires Zero(page)
    ensures Tables(mem[d := page], d) == {}
  {
    PteParts(0, 0);
  }

  /** A new directory d with the first k rows mapped. */
  ghost predicate Built(mem: Mem, own: Own, mem': Mem, own': Own, d: int, data: int, k: int)
    requires DataOk(data) && 0 <= k <= 4
  {
    && SameData(mem, mem', own) && SameEntries(mem, mem', own)
    && d in own && own[d] == Free && IsDir(own', d) && Grew(own, own', d)
    && (forall vq :: 0 <= vq < ENDPAGE ==> Entry(mem', d, vq) == KernelEntry(data, k, vq))
  }

  lemma BuiltLayout(mem: Mem, own: Own, mem': Mem, own': Own, d: int, data: int)
    requires DataOk(data) && Built(mem, own, mem', own', d, data, 4)
    ensures forall vp :: 0 <= vp < ENDPAGE ==> KernelLayout(Entry(mem', d, vp), data, vp)
  {
    hide Entry, KernelEntry, KernelLayout;
    forall vp | 0 <= vp < ENDPAGE
      ensures KernelLayout(Entry(mem', d, vp), data, vp)
    {
      KernelEntryIs(data, vp);
    }
  }

  lemma BuiltNone(mem: Mem, own: Own, free: seq<int>, head: int, d: int, page: seq<int>, data: int)
    requires Inv(mem, own) && d in own && own[d] == Free && Zero(page) && DataOk(data)
    requires ListOk(mem, own[d := Held], free, head)
    ensures Inv(mem[d := page], own[d := Dir]) && ListOk(mem[d := page], own[d := Dir], free, head)
    ensures Built(mem, own, mem[d := page], own[d := Dir], d, data, 0)
  {
    RelabelInv(mem, own, d, page, Held);
    NewDirInv(mem[d := page], own[d := Held], d);
    ListFrame(mem, own[d := Held], mem[d := page], own[d := Dir], free, head);
    assert own[d := Held][d := Dir] == own[d := Dir];
    hide Entry, FrameOk, ListOk;
  }

  lemma BuiltDir(mem0: Mem, own0: Own, mem: Mem, own: Own, d: int, data: int, k: int)
    requires DataOk(data) && 0 <= k <= 4 && Built(mem0, own0, mem, own, d, data, k)
    ensures IsDir(own, d)
  {
  }

  lemma BuiltNext(mem0: Mem, own0: Own, mem: Mem, own: Own, mem': Mem, own': Own, d: int, data: int, k: int, n: nat)
    requires DataOk(data) && 0 <= k < 4 && Built(mem0, own0, mem, own, d, data, k)
    requires var m := KmapAt(data, k); n <= m.n && RangeMapped(mem, own, mem', own', d, m.virt, n, m.phys, m.perm)
    ensures IsDir(own', d) && Grew(own0, own', d) && SameEntries(mem0, mem', own0) && SameData(mem0, mem', own0)
    ensures d in own0 && own0[d] == Free
    ensures n < KmapAt(data, k).n ==> !Present(Entry(mem, d, KmapAt(data, k).virt + n))
    ensures n == KmapAt(data, k).n ==> Built(mem0, own0, mem', own', d, data, k + 1)
  {
    PteParts(0, 0);
    forall vq
      ensures KmapAt(data, k).virt <= vq < KmapAt(data, k).virt + KmapAt(data, k).n ==> KernelEntry(data, k, vq) == 0
    {
      RowsDisjoint(data, k, vq);
    }
    hide Entry, Present, MakePte;
    forall e | IsDir(own0, e) ensures IsDir(own, e) && e != d {}
  }

  /** Building a directory and giving it up again takes nothing. */
  lemma Restored(mem0: Mem, own0: Own, mem: Mem, own: Own, mem': Mem, own': Own, d: int)
    requires Inv(mem0, own0) && d in own0 && own0[d] == Free && Grew(own0, own, d)
    requires SameEntries(mem0, mem, own0) && SameData(mem0, mem, own0) && Destroyed(mem, own, mem', own', d)
    ensures own' == own0 && SameEntries(mem0, mem', own0) && SameData(mem0, mem', own0)
  {
    hide Entry, Present, FrameOf;
    forall f | f in own0
      ensures own'[f] == own0[f]
    {
      assert FrameOk(mem0, own0, f);
    }
    forall f
      ensures f in own' <==> f in own0
    {
      assert f in own <==> f in own0;
    }
    assert own' == own0;
    forall e | IsDir(own0, e) ensures IsDir(own, e) && e != d {}
  }

  // ---- growing a process ----

  datatype AllocResult = Size(sz: nat) | Panicked

  /** What growing from page lo up to page hi takes, with tables ts: the pages and the tables that are absent. */
  ghost function AllocNeeds(ts: set<int>, lo: int, hi: int): int {
    hi - lo + TablesNeeded(ts, lo, hi)
  }

  lemma AllocNeedsNone(ts: set<int>, lo: int)
    ensures AllocNeeds(ts, lo, lo) == 0 && ts + PdxOf(lo, lo) == ts
  {
    TablesNone(ts, lo);
  }

  lemma AllocNeedsStep(ts: set<int>, lo: int, a: int, hi: int)
    requires lo <= a < hi
    ensures AllocNeeds(ts, lo, a + 1) == AllocNeeds(ts, lo, a) + 1 + TableNeed(ts + PdxOf(lo, a), a)
    ensures AllocNeeds(ts, lo, a + 1) <= AllocNeeds(ts, lo, hi) && ts + PdxOf(lo, a + 1) == ts + PdxOf(lo, a) + {Pdx(a)}
  {
    hide TablesNeeded;
    TablesStep(ts, lo, a);
    TablesGrow(ts, lo, a + 1, hi);
  }

  /** v is the first virtual page from lo on that is mapped, or that is not. */
  ghost predicate FirstPage(mem: Mem, d: int, lo: int, v: int, mapped: bool) {
    lo <= v && Present(Entry(mem, d, v)) == mapped && forall u :: lo <= u < v ==> Present(Entry(mem, d, u)) != mapped
  }

  /** Allocating from lo up to hi comes upon a mapped page before memory runs out. */
  ghost predicate MeetsMapped(mem: Mem, d: int, free: nat, lo: int, hi: int) {
    exists v :: v < hi && FirstPage(mem, d, lo, v, true) && free >= AllocNeeds(Tables(mem, d), lo, v + 1)
  }

  /** A mapped page needs no table. */
  lemma PresentTable(mem: Mem, d: int, a: int)
    requires 0 <= a < ENDPAGE && Present(Entry(mem, d, a))
    ensures Pdx(a) in Tables(mem, d) && TableNeed(Tables(mem, d), a) == 0
  {
  }

  /** Memory has run out at page a, before which nothing was mapped: no mapped page is met. */
  lemma ShortageFirst(mem0: Mem, mem: Mem, d: int, free: nat, left: nat, lo: int, a: int, hi: int)
    requires lo <= a < hi <= ENDPAGE && 0 <= lo && forall u :: lo <= u < a ==> !Present(Entry(mem0, d, u))
    requires Tables(mem, d) == Tables(mem0, d) + PdxOf(lo, a) && Entry(mem, d, a) == Entry(mem0, d, a)
    requires free == left + AllocNeeds(Tables(mem0, d), lo, a) && left < 1 + TableNeed(Tables(mem, d), a)
    ensures !MeetsMapped(mem0, d, free, lo, hi)
  {
    hide Entry, Tables, AllocNeeds, PdxOf, TableNeed;
    var ts := Tables(mem0, d);
    forall v | v < hi && FirstPage(mem0, d, lo, v, true)
      ensures free < AllocNeeds(ts, lo, v + 1)
    {
      AllocNeedsStep(ts, lo, a, v + 1);
      AllocNeedsStep(ts, lo, a, hi);
    }
  }

  /** Page a is mapped, nothing before it was, and a page for it could be had. */
  lemma MappedFirst(mem0: Mem, mem: Mem, d: int, free: nat, left: nat, lo: int, a: int, hi: int)
    requires lo <= a < hi <= ENDPAGE && 0 <= lo && forall u :: lo <= u < a ==> !Present(Entry(mem0, d, u))
    requires Tables(mem, d) == Tables(mem0, d) + PdxOf(lo, a) && Entry(mem, d, a) == Entry(mem0, d, a)
    requires free == left + AllocNeeds(Tables(mem0, d), lo, a) && left >= 1 && Present(Entry(mem0, d, a))
    ensures MeetsMapped(mem0, d, free, lo, hi)
  {
    hide Entry, Tables, AllocNeeds, PdxOf, TableNeed;
    PresentTable(mem, d, a);
    AllocNeedsStep(Tables(mem0, d), lo, a, hi);
    assert FirstPage(mem0, d, lo, a, true);
  }

  /** Directory d has got zeroed, writable user pages for the virtual pages from lo up to hi. */
  ghost predicate Grown(mem: Mem, own: Own, mem': Mem, own': Own, d: int, lo: int, hi: int) {
    && SameData(mem, mem', own) && Grew(own, own', d)
    && (forall e, vq :: IsDir(own, e) && 0 <= vq < ENDPAGE && !(e == d && lo <= vq < hi) ==>
          Entry(mem', e, vq) == Entry(mem, e, vq))
    && (forall vq :: lo <= vq < hi ==> NewPage(mem, mem', own', d, vq))
  }

  ghost predicate NewPage(mem: Mem, mem': Mem, own': Own, d: int, vq: int) {
    var f := FrameOf(Entry(mem', d, vq));
    && !Present(Entry(mem, d, vq)) && Present(Entry(mem', d, vq)) && FlagsOf(Entry(mem', d, vq)) == PTE_W + PTE_U + 1
    && f in own' && own'[f] == User(d, vq) && f in mem' && Zero(mem'[f])
  }

  lemma GrownNone(mem: Mem, own: Own, d: int, lo: int)
    requires Pages(mem, own)
    ensures Grown(mem, own, mem, own, d, lo, lo)
  {
  }

  lemma GrownDir(mem0: Mem, own0: Own, mem: Mem, own: Own, d: int, lo: int, hi: int)
    requires Grown(mem0, own0, mem, own, d, lo, hi) && IsDir(own0, d)
    ensures IsDir(own, d)
  {
  }

  lemma GrownFresh(mem0: Mem, own0: Own, mem: Mem, own: Own, d: int, lo: int, hi: int)
    requires Grown(mem0, own0, mem, own, d, lo, hi)
    ensures forall u :: lo <= u < hi ==> !Present(Entry(mem0, d, u))
  {
    hide Entry, Present;
    forall u | lo <= u < hi
      ensures !Present(Entry(mem0, d, u))
    {
      assert NewPage(mem0, mem, own, d, u);
    }
  }

  lemma NoneMet(mem: Mem, d: int, free: nat, lo: int, hi: int)
    requires forall u :: lo <= u < hi ==> !Present(Entry(mem, d, u))
    ensures !MeetsMapped(mem, d, free, lo, hi)
  {
  }

  lemma GrownAt(mem0: Mem, own0: Own, mem: Mem, own: Own, d: int, lo: int, hi: int)
    requires Grown(mem0, own0, mem, own, d, lo, hi) && IsDir(own0, d) && 0 <= hi < ENDPAGE
    ensures Entry(mem, d, hi) == Entry(mem0, d, hi)
  {
  }

  /** Nothing is mapped from lo up to hi; the pages that were are free, and d may have more tables. */
  ghost predicate Undone(mem: Mem, own: Own, mem': Mem, own': Own, d: int, lo: int, hi: int) {
    && SameData(mem, mem', own')
    && (forall f :: f in own <==> f in own')
    && (forall f :: f in own ==>
          if own[f] == Free then own'[f] == Free || (own'[f].Table? && own'[f].dir == d)
          else own'[f] == if Within(own[f], d, lo, hi) then Free else own[f])
    && (forall vq :: lo <= vq < hi ==> !Present(Entry(mem', d, vq)))
    && (forall e, vq :: IsDir(own, e) && 0 <= vq < ENDPAGE && !(e == d && lo <= vq < hi) ==>
          Entry(mem', e, vq) == Entry(mem, e, vq))
  }

  lemma GrownStep(mem0: Mem, own0: Own, mem1: Mem, own1: Own, mem: Mem, own: Own, d: int, lo: int, a: int, m: int,
                  page: seq<int>)
    requires Grown(mem0, own0, mem1, own1, d, lo, a) && IsDir(own0, d) && 0 <= lo <= a < KERNPAGE
    requires m in own1 && own1[m] == Free && Zero(page) && !Present(Entry(mem1[m := page], d, a))
    requires Inv(mem1, own1)
    requires MappedTo(mem1[m := page], own1[m := Held], mem, own, d, a, m, PTE_W + PTE_U)
    ensures Grown(mem0, own0, mem, own, d, lo, a + 1)
  {
    RelabelInv(mem1, own1, m, page, Held);
    PteParts(m, PTE_W + PTE_U);
    var mem2, own2 := mem1[m := page], own1[m := Held];
    assert own2[m := Free] == own1;
    hide Entry, Present, FrameOf, FlagsOf, MakePte, Inv;
    forall e | IsDir(own0, e) ensures IsDir(own1, e) && IsDir(own2, e) {}
    forall vq | lo <= vq < a
      ensures NewPage(mem0, mem, own, d, vq)
    {
      assert NewPage(mem0, mem1, own1, d, vq);
      assert Entry(mem, d, vq) == Entry(mem1, d, vq);
    }
    assert Entry(mem1, d, a) == Entry(mem0, d, a);
    assert NewPage(mem0, mem, own, d, a);
    forall e, vq | IsDir(own0, e) && 0 <= vq < ENDPAGE && !(e == d && lo <= vq < a + 1)
      ensures Entry(mem, e, vq) == Entry(mem0, e, vq)
    {
      assert Entry(mem2, e, vq) == Entry(mem1, e, vq);
    }
  }

  /** Freeing pages of d does not touch a page m that is held meanwhile. */
  lemma FreedHeld(mem1: Mem, own1: Own, mem2: Mem, own2: Own, d: int, lo: int, hi: int, m: int, page: seq<int>)
    requires m in own1 && own1[m] == Free && Freed(mem1[m := page], own1[m := Held], mem2, own2, d, lo, hi)
    ensures m in own2 && own2[m] == Held
  {
  }

  lemma FreedAside(mem1: Mem, own1: Own, mem2: Mem, own2: Own, mem: Mem, own: Own, d: int, lo: int, hi: int, m: int,
                   page: seq<int>)
    requires Inv(mem1, own1) && m in own1 && own1[m] == Free && |page| == ENTRIES
    requires Freed(mem1[m := page], own1[m := Held], mem2, own2, d, lo, hi)
    requires own == own2[m := Free] && m in mem && mem == mem2[m := mem[m]]
    requires forall e, vq :: IsDir(own2, e) ==> Entry(mem, e, vq) == Entry(mem2, e, vq)
    ensures Freed(mem1, own1, mem, own, d, lo, hi)
  {
    RelabelInv(mem1, own1, m, page, Held);
    hide Entry, Present, Inv;
    var mem1', own1' := mem1[m := page], own1[m := Held];
    forall e, vq | IsDir(own1, e) && 0 <= vq < ENDPAGE
      ensures Entry(mem, e, vq) == if e == d && lo <= vq < hi && Present(Entry(mem1, e, vq)) then 0
              else Entry(mem1, e, vq)
    {
      assert IsDir(own1', e) && IsDir(own2, e) && Entry(mem1', e, vq) == Entry(mem1, e, vq);
    }
  }

  lemma UndoneAll(mem0: Mem, own0: Own, mem1: Mem, own1: Own, mem: Mem, own: Own, d: int, lo: int, a: int, hi: int)
    requires Inv(mem0, own0) && Inv(mem1, own1) && IsDir(own0, d) && 0 <= lo <= a <= hi <= KERNPAGE
    requires Grown(mem0, own0, mem1, own1, d, lo, a) && Freed(mem1, own1, mem, own, d, lo, hi)
    ensures Undone(mem0, own0, mem, own, d, lo, hi)
  {
    PteParts(0, 0);
    forall f | f in own0 && own0[f] == Free
      ensures own1[f] == Free || (own1[f].Table? && own1[f].dir == d) || Within(own1[f], d, lo, a)
    {
      GrownLabel(mem0, own0, mem1, own1, d, lo, a, f);
    }
    hide Entry, Present, Inv, NewPage, FrameOf;
    forall e | IsDir(own0, e) ensures IsDir(own1, e) {}
  }

  /** A page that directory d took is a table or one of the new user pages. */
  lemma GrownLabel(mem0: Mem, own0: Own, mem1: Mem, own1: Own, d: int, lo: int, a: int, f: int)
    requires Inv(mem0, own0) && Inv(mem1, own1) && IsDir(own0, d) && Grown(mem0, own0, mem1, own1, d, lo, a)
    requires f in own0 && own0[f] == Free
    ensures own1[f] == Free || (own1[f].Table? && own1[f].dir == d) || Within(own1[f], d, lo, a)
  {
    hide Entry, Present, FrameOf;
    assert FrameOk(mem1, own1, f);
    if own1[f].User? && !(lo <= own1[f].vp < a) {
      var vp := own1[f].vp;
      assert Entry(mem1, d, vp) == Entry(mem0, d, vp);
      assert Refers(mem0, own0, UserSlot(d, vp), f);
      ReferredOwner(mem0, own0, UserSlot(d, vp), f);
    }
  }

  // ---- copying a process ----

  datatype CopyResult = Child(pgdir: int) | OutOfMemory | Bad

  /** What copying n pages takes: a directory with the kernel's tables, the pages, and a table per 1024 of them. */
  function CopyNeeds(n: nat): nat {
    KVMPAGES + n + (n + ENTRIES - 1) / ENTRIES
  }

  /** Copying n pages comes upon one that is not mapped before memory runs out. */
  ghost predicate MeetsHole(mem: Mem, d: int, free: nat, n: nat) {
    exists v: nat :: v < n && FirstPage(mem, d, 0, v, false) && free >= CopyNeeds(v)
  }

  lemma CopyGrows(m: nat, n: nat)
    requires m <= n
    ensures CopyNeeds(m) <= CopyNeeds(n)
  {
  }

  lemma TooFew(mem: Mem, d: int, free: nat, n: nat)
    requires free < KVMPAGES
    ensures !MeetsHole(mem, d, free, n)
  {
  }

  lemma HoleFirst(mem: Mem, d: int, free: nat, i: nat, n: nat)
    requires i < n && FirstPage(mem, d, 0, i, false) && free >= CopyNeeds(i)
    ensures MeetsHole(mem, d, free, n)
  {
  }

  /** Memory has run out at page i, up to which everything is mapped: no unmapped page is met. */
  lemma ShortageBeforeHole(mem: Mem, d: int, free: nat, i: nat, n: nat)
    requires i < n && free < CopyNeeds(i + 1) && forall u :: 0 <= u <= i ==> Present(Entry(mem, d, u))
    ensures !MeetsHole(mem, d, free, n)
  {
    hide Entry, Present, CopyNeeds;
    forall v: nat | v < n && FirstPage(mem, d, 0, v, false)
      ensures free < CopyNeeds(v)
    {
      CopyGrows(i + 1, if v <= i then i + 1 else v);
    }
  }

  lemma NoHoleMet(mem: Mem, d: int, free: nat, n: nat)
    requires forall u :: 0 <= u < n ==> Present(Entry(mem, d, u))
    ensures !MeetsHole(mem, d, free, n)
  {
  }

  lemma CopiedPresent(mem0: Mem, own0: Own, mem: Mem, own: Own, d: int, c: int, data: int, n: int)
    requires DataOk(data) && Copied(mem0, own0, mem, own, d, c, data, n)
    ensures forall u :: 0 <= u < n ==> Present(Entry(mem0, d, u))
  {
    hide Entry, Present;
    forall u | 0 <= u < n
      ensures Present(Entry(mem0, d, u))
    {
      assert CopyOf(mem0, mem, own, d, c, u);
    }
  }

  lemma CopyCost(data: int, n: nat)
    requires DataOk(data) && n <= KERNPAGE
    ensures KVMPAGES + AllocNeeds(RowPdx(data, 4), 0, n) == CopyNeeds(n) >= KVMPAGES
  {
    hide RowPdx;
    RowPdxSizes(data);
    var k := (n + ENTRIES - 1) / ENTRIES;
    var s := RowPdx(data, 4) + PdxOf(0, n);
    forall i ensures i in s <==> i in RowPdx(data, 4) || 0 <= i < k {
      PdxRange(0, n, i);
    }
    forall i | i in RowPdx(data, 4) ensures i >= 512 {
      RowPdxIs(data, i);
    }
    assert k <= 512;
    var u := Ints(0, k);
    hide PdxOf, Ints;
    assert s == RowPdx(data, 4) + u && RowPdx(data, 4) !! u;
  }

  /** The child's page vq has the parent's bytes and flags, on a page of its own. */
  ghost predicate CopyOf(mem0: Mem, mem: Mem, own: Own, d: int, c: int, vq: int) {
    var e0, e := Entry(mem0, d, vq), Entry(mem, c, vq);
    && Present(e0) && Present(e) && FlagsOf(e) == FlagsOf(e0)
    && FrameOf(e0) in mem0 && FrameOf(e) in mem && FrameOf(e) in own && own[FrameOf(e)] == User(c, vq)
    && mem[FrameOf(e)] == mem0[FrameOf(e0)]
  }

  /** Directory c, made of pages that were free, is being filled; nothing else has changed. */
  ghost predicate Begun(mem0: Mem, own0: Own, mem: Mem, own: Own, c: int) {
    && SameData(mem0, mem, own0) && SameEntries(mem0, mem, own0)
    && c in own0 && own0[c] == Free && IsDir(own, c) && Grew(own0, own, c)
  }

  /** c copies the user pages of d below page n and has exactly the kernel's other mappings. */
  ghost predicate Copied(mem0: Mem, own0: Own, mem: Mem, own: Own, d: int, c: int, data: int, n: int)
    requires DataOk(data)
  {
    && Begun(mem0, own0, mem, own, c)
    && (forall vq :: 0 <= vq < n ==> CopyOf(mem0, mem, own, d, c, vq))
    && (forall vq :: n <= vq < ENDPAGE ==> Entry(mem, c, vq) == KernelEntry(data, 4, vq))
  }

  lemma CopiedLayout(mem0: Mem, own0: Own, mem: Mem, own: Own, d: int, c: int, data: int, n: int)
    requires DataOk(data) && Copied(mem0, own0, mem, own, d, c, data, n) && n <= KERNPAGE
    ensures forall vp :: KERNPAGE <= vp < ENDPAGE ==> KernelLayout(Entry(mem, c, vp), data, vp)
  {
    hide Entry, KernelEntry, KernelLayout, Begun, CopyOf;
    forall vp | KERNPAGE <= vp < ENDPAGE
      ensures KernelLayout(Entry(mem, c, vp), data, vp)
    {
      KernelEntryIs(data, vp);
    }
  }

  lemma CopiedNone(mem0: Mem, own0: Own, mem: Mem, own: Own, d: int, c: int, data: int)
    requires DataOk(data) && Built(mem0, own0, mem, own, c, data, 4)
    ensures Copied(mem0, own0, mem, own, d, c, data, 0)
  {
  }

  lemma CopiedDirs(mem0: Mem, own0: Own, mem: Mem, own: Own, d: int, c: int, data: int, i: int)
    requires DataOk(data) && IsDir(own0, d) && 0 <= i < KERNPAGE && Copied(mem0, own0, mem, own, d, c, data, i)
    ensures IsDir(own, d) && IsDir(own, c) && Begun(mem0, own0, mem, own, c)
    ensures Entry(mem, d, i) == Entry(mem0, d, i) && !Present(Entry(mem, c, i))
  {
    RowAbove(data, 3, 3, i);
    PteParts(0, 0);
  }

  lemma EntryUser(mem: Mem, own: Own, d: int, vp: int)
    requires Inv(mem, own) && IsDir(own, d) && 0 <= vp < KERNPAGE && Present(Entry(mem, d, vp))
    ensures var f := FrameOf(Entry(mem, d, vp)); f in own && own[f] == User(d, vp) && f in mem && |mem[f]| == ENTRIES
  {
    ReferredOwner(mem, own, UserSlot(d, vp), FrameOf(Entry(mem, d, vp)));
  }

  /** Taking a page and giving it back leaves the state of a copy as it was. */
  lemma BegunAgain(mem0: Mem, own0: Own, mem1: Mem, own1: Own, mem: Mem, own: Own, c: int, m: int)
    requires Begun(mem0, own0, mem1, own1, c) && m in own1 && own1[m] == Free && own == own1[m := Held][m := Free]
    requires Pages(mem1, own1) && Pages(mem, own) && forall f :: f in own1 && f != m ==> mem[f] == mem1[f]
    requires forall e, vq :: IsDir(own1, e) ==> Entry(mem, e, vq) == Entry(mem1, e, vq)
    ensures Begun(mem0, own0, mem, own, c)
  {
    assert own == own1;
    hide Entry;
    forall e | IsDir(own0, e) ensures IsDir(own1, e) {}
  }

  lemma CopiedStep(mem0: Mem, own0: Own, mem1: Mem, own1: Own, mem: Mem, own: Own, d: int, c: int, data: int, i: int,
                   m: int)
    requires DataOk(data) && Inv(mem0, own0) && Inv(mem1, own1) && IsDir(own0, d) && 0 <= i < KERNPAGE
    requires Copied(mem0, own0, mem1, own1, d, c, data, i) && m in own1 && own1[m] == Free
    requires Present(Entry(mem1, d, i)) && FrameOf(Entry(mem1, d, i)) in mem1
    requires var e := Entry(mem1, d, i);
             MappedTo(mem1[m := mem1[FrameOf(e)]], own1[m := Held], mem, own, c, i, m, FlagsOf(e))
    ensures Copied(mem0, own0, mem, own, d, c, data, i + 1)
  {
    CopiedDirs(mem0, own0, mem1, own1, d, c, data, i);
    EntryUser(mem0, own0, d, i);
    var e := Entry(mem1, d, i);
    var mem2, own2 := mem1[m := mem1[FrameOf(e)]], own1[m := Held];
    RelabelInv(mem1, own1, m, mem1[FrameOf(e)], Held);
    FlagsPresent(e);
    PteParts(m, FlagsOf(e));
    assert own2[m := Free] == own1;
    hide Entry, Present, FrameOf, FlagsOf, MakePte, Inv, KernelEntry;
    forall x | IsDir(own0, x) ensures IsDir(own1, x) && IsDir(own2, x) && x != c {}
    forall vq | 0 <= vq < i
      ensures CopyOf(mem0, mem, own, d, c, vq)
    {
      assert CopyOf(mem0, mem1, own1, d, c, vq);
      assert Entry(mem, c, vq) == Entry(mem1, c, vq);
    }
    assert CopyOf(mem0, mem, own, d, c, i);
  }

  // -- the kernel part stays the same in every directory --

  /** Every directory maps the kernel part exactly as kmap[] says. */
  ghost predicate KernelParts(mem: Mem, own: Own, data: int)
    requires DataOk(data)
  {
    forall e, vq :: IsDir(own, e) && KERNPAGE <= vq < ENDPAGE ==> Entry(mem, e, vq) == KernelEntry(data, 4, vq)
  }

  lemma KernelSame(mem: Mem, own: Own, mem': Mem, own': Own, data: int)
    requires DataOk(data) && KernelParts(mem, own, data) && own' == own && SameEntries(mem, mem', own)
    ensures KernelParts(mem', own', data)
  {
    hide Entry, KernelEntry;
  }

  lemma KernelBuilt(mem: Mem, own: Own, mem': Mem, own': Own, d: int, data: int)
    requires DataOk(data) && KernelParts(mem, own, data) && Built(mem, own, mem', own', d, data, 4)
    ensures KernelParts(mem', own', data)
  {
    hide Entry, KernelEntry;
    forall e | IsDir(own', e) ensures e == d || IsDir(own, e) {}
  }

  lemma KernelGrown(mem: Mem, own: Own, mem': Mem, own': Own, d: int, lo: int, hi: int, data: int)
    requires DataOk(data) && KernelParts(mem, own, data) && IsDir(own, d) && hi <= KERNPAGE
    requires Grown(mem, own, mem', own', d, lo, hi) || Undone(mem, own, mem', own', d, lo, hi)
    ensures KernelParts(mem', own', data)
  {
    hide Entry, KernelEntry, Present;
    forall e | IsDir(own', e) ensures IsDir(own, e) {}
  }

  lemma KernelFreed(mem: Mem, own: Own, mem': Mem, own': Own, d: int, lo: int, hi: int, data: int)
    requires DataOk(data) && KernelParts(mem, own, data) && hi <= KERNPAGE && Freed(mem, own, mem', own', d, lo, hi)
    ensures KernelParts(mem', own', data)
  {
    hide Entry, KernelEntry, Present;
    forall e | IsDir(own', e) ensures IsDir(own, e) {}
  }

  lemma KernelDestroyed(mem: Mem, own: Own, mem': Mem, own': Own, d: int, data: int)
    requires DataOk(data) && KernelParts(mem, own, data) && IsDir(own, d) && Destroyed(mem, own, mem', own', d)
    ensures KernelParts(mem', own', data)
  {
    hide Entry, KernelEntry;
    forall e | IsDir(own', e) ensures IsDir(own, e) && e != d {}
  }

  lemma KernelCopied(mem: Mem, own: Own, mem': Mem, own': Own, d: int, c: int, data: int, n: int)
    requires DataOk(data) && KernelParts(mem, own, data) && n <= KERNPAGE && Copied(mem, own, mem', own', d, c, data, n)
    ensures KernelParts(mem', own', data)
  {
    hide Entry, KernelEntry, CopyOf;
    forall e | IsDir(own', e) ensures e == c || IsDir(own, e) {}
  }

  datatype Word = NoWord | Word(w: int)

  /** The k-th word of virtual page vp under directory d. */
  ghost function ReadWord(mem: Mem, d: int, vp: int, k: nat): Word {
    var e := Entry(mem, d, vp);
    if Present(e) && FrameOf(e) in mem && k < |mem[FrameOf(e)]| then Word(mem[FrameOf(e)][k]) else NoWord
  }

  /** After a successful copyuvm() child and parent read the same words below page n, as the parent did
      before; the child's pages are its own; and the kernel's mappings are the same in both. */
  lemma ForkCopies(mem0: Mem, own0: Own, mem: Mem, own: Own, d: int, c: int, data: int, n: int, vp: int, k: nat)
    requires DataOk(data) && Inv(mem0, own0) && Inv(mem, own) && IsDir(own0, d) && 0 <= vp < n <= KERNPAGE
    requires Copied(mem0, own0, mem, own, d, c, data, n) && KernelParts(mem0, own0, data)
    ensures ReadWord(mem, c, vp, k) == ReadWord(mem0, d, vp, k) == ReadWord(mem, d, vp, k)
    ensures FlagsOf(Entry(mem, c, vp)) == FlagsOf(Entry(mem, d, vp))
    ensures forall e, vq :: IsDir(own, e) && 0 <= vq < KERNPAGE && Present(Entry(mem, e, vq)) && !(e == c && vq == vp)
              ==> FrameOf(Entry(mem, e, vq)) != FrameOf(Entry(mem, c, vp))
    ensures forall vq :: KERNPAGE <= vq < ENDPAGE ==> Entry(mem, c, vq) == Entry(mem, d, vq)
  {
    assert CopyOf(mem0, mem, own, d, c, vp);
    EntryUser(mem0, own0, d, vp);
    assert Entry(mem, d, vp) == Entry(mem0, d, vp);
    hide Entry, Present, FrameOf, FlagsOf, KernelEntry;
    forall e, vq | IsDir(own, e) && 0 <= vq < KERNPAGE && Present(Entry(mem, e, vq)) && !(e == c && vq == vp)
      ensures FrameOf(Entry(mem, e, vq)) != FrameOf(Entry(mem, c, vp))
    {
      EntryUser(mem, own, e, vq);
    }
  }

  lemma FlagsPresent(e: int)
    requires Present(e)
    ensures 0 <= FlagsOf(e) < PGSIZE && FlagsOf(e) % 2 == 1
  {
    var h, q := e / 2, e / PGSIZE;
    var k := h - 2048 * q;
    assert FlagsOf(e) == 2 * k + 1;
    OddIsOdd(k);
  }


  /** What walkpgdir()'s result says about the entry of vp. */
  lemma Present0(mem: Mem, own: Own, d: int, vp: int, t: int)
    requires Inv(mem, own) && IsDir(own, d) && 0 <= vp < ENDPAGE
    requires t == 0 ==> 0 <= Pdx(vp) < ENTRIES && !Present(mem[d][Pdx(vp)])
    requires t != 0 ==> t in own && own[t] == Table(d, Pdx(vp))
    ensures 0 <= Ptx(vp) < ENTRIES
    ensures t == 0 ==> Entry(mem, d, vp) == 0 && !Present(Entry(mem, d, vp))
    ensures t != 0 ==> Entry(mem, d, vp) == mem[t][Ptx(vp)]
  {
    Indices(vp);
    if t != 0 {
      EntryOfTable(mem, own, d, vp, t);
    }
  }

  class PhysMem {
    const lo: int
    const hi: int
    const data: int
    var mem: Mem
    var freelist: int
    ghost var free: seq<int>
    ghost var own: Own

    /** The pages between the kernel image and PHYSTOP, and the free list threaded through them. */
    ghost predicate ListValid()
      reads this
    {
      && 0 < lo <= hi <= PHYSPAGE && (forall f :: f in own <==> lo <= f < hi)
      && Pages(mem, own) && ListOk(mem, own, free, freelist)
    }

    ghost predicate Valid()
      reads this
    {
      ListValid() && Inv(mem, own)
    }

    /** The machine before kinit1(): every page is held by the boot code and the list is empty. */
    constructor (lo: int, data: int, pages: Mem)
      requires 0 < lo <= PHYSPAGE && DataOk(data)
      requires forall f :: (f in pages <==> lo <= f < PHYSPAGE) && (f in pages ==> |pages[f]| == ENTRIES)
      ensures Valid() && this.lo == lo && this.hi == PHYSPAGE && this.data == data && mem == pages && free == []
      ensures forall f :: f in own ==> own[f] == Held
    {
      this.lo, this.hi, this.data := lo, PHYSPAGE, data;
      mem, freelist, free := pages, 0, [];
      own := map f | f in pages :: Held;
    }

    /** freerange(): exactly the held pages that lie wholly between the two addresses become free. */
    method FreeRange(vstart: nat, vend: nat)
      requires Valid() && forall f :: Up(vstart) <= f && (f + 1) * PGSIZE <= vend ==> f in own && own[f] == Held
      modifies this
      ensures Valid()
      ensures forall f :: f in own <==> f in old(own)
      ensures forall f :: f in own ==>
                own[f] == if Up(vstart) <= f && (f + 1) * PGSIZE <= vend then Free else old(own)[f]
    {
      hide Inv, ListOk, Pages;
      var p := Up(vstart);
      while (p + 1) * PGSIZE <= vend
        invariant Valid() && Up(vstart) <= p
        invariant forall f :: f in own <==> f in old(own)
        invariant forall f :: f in own ==>
                    own[f] == if Up(vstart) <= f < p && (f + 1) * PGSIZE <= vend then Free else old(own)[f]
        decreases vend - p * PGSIZE
      {
        ghost var mem1, own1 := mem, own;
        assert p in old(own) && p in own;
        var _ := Kfree(p);
        RelabelInv(mem1, own1, p, mem[p], Free);
        p := p + 1;
      }
    }

    /** kfree() of a page that is not on the list; false is the panic for a page outside the range. */
    method Kfree(v: int) returns (ok: bool)
      requires ListValid() && (lo <= v < hi ==> own[v] != Free)
      modifies this
      ensures ListValid() && (ok <==> lo <= v < hi)
      ensures ok ==> free == [v] + old(free) && own == old(own)[v := Free]
      ensures ok ==> v in mem && |mem[v]| == ENTRIES && mem == old(mem)[v := mem[v]]
      ensures ok ==> forall j :: 1 <= j < ENTRIES ==> mem[v][j] == 0x01010101
      ensures !ok ==> free == old(free) && own == old(own) && mem == old(mem)
    {
      if v < lo || v >= hi {
        return false;
      }
      var page := seq(ENTRIES, _ => Junk());
      page := page[0 := freelist];
      ListPush(mem, own, free, freelist, v, page);
      hide ListOk, Pages;
      mem := mem[v := page];
      freelist := v;
      free, own := [v] + free, own[v := Free];
      ok := true;
    }

    /** kalloc(): the first page of the list, or 0. */
    method Kalloc() returns (p: int)
      requires Valid()
      modifies this
      ensures Valid() && mem == old(mem)
      ensures old(free) == [] ==> p == 0 && own == old(own) && free == [] && freelist == old(freelist)
      ensures old(free) != [] ==> lo <= p < hi && p == old(free)[0] && free == old(free)[1..]
      ensures old(free) != [] ==> old(own)[p] == Free && own == old(own)[p := Held]
    {
      p := freelist;
      if p != 0 {
        ListPop(mem, own, free, freelist);
        RelabelInv(mem, own, p, mem[p], Held);
        assert mem == mem[p := mem[p]];
        hide ListOk, Pages, Inv;
        freelist := mem[p][0];
        free, own := free[1..], own[p := Held];
      }
    }

    /** walkpgdir() for an absent table that is wanted: a zeroed page becomes the table of slot i. */
    method NewTable(d: int, i: int) returns (t: int)
      requires Valid() && IsDir(own, d) && 0 <= i < ENTRIES && !Present(mem[d][i])
      modifies this
      ensures Valid()
      ensures t == 0 ==> own == old(own) && mem == old(mem) && free == old(free) == []
      ensures t != 0 ==> t in own && own[t] == Table(d, i)
      ensures t != 0 ==> |free| == |old(free)| - 1 && Tables(mem, d) == Tables(old(mem), d) + {i}
      ensures Extended(old(mem), old(own), mem, own, d)
    {
      hide ListOk, Inv, SameEntries, SameData, Grew;
      t := Kalloc();
      if t == 0 {
        ExtendedRefl(mem, own, d);
        return;
      }
      var page := seq(ENTRIES, _ => 0);
      NewTableStep(old(mem), old(own), d, i, t, page);
      NewTableSlot(mem, d, i, t, page);
      ListFrame(mem, own, mem[t := page][d := mem[d][i := MakePte(t, PTE_W + PTE_U)]], own[t := Table(d, i)], free,
                freelist);
      mem := mem[t := page];
      mem := mem[d := mem[d][i := MakePte(t, PTE_W + PTE_U)]];
      own := own[t := Table(d, i)];
      assert own == old(own)[t := Table(d, i)];
    }

    /** walkpgdir(): the table with the entry of vp, allocated if asked for. No translation changes. */
    method Walk(d: int, vp: int, alloc: bool) returns (t: int)
      requires Valid() && IsDir(own, d) && 0 <= vp < ENDPAGE
      modifies this
      ensures Valid() && Extended(old(mem), old(own), mem, own, d)
      ensures t != 0 ==> && t in own && own[t] == Table(d, Pdx(vp)) && IsDir(own, d)
                         && FrameOf(mem[d][Pdx(vp)]) == t && FlagsOf(mem[d][Pdx(vp)]) == 7
      ensures t == 0 || !alloc || Present(Entry(old(mem), d, vp)) ==> own == old(own) && mem == old(mem)
                                                                      && free == old(free)
      ensures t == 0 <==> !Present(old(mem)[d][Pdx(vp)]) && (!alloc || old(free) == [])
      ensures t == 0 && alloc ==> |old(free)| < TableNeed(Tables(old(mem), d), vp)
      ensures t != 0 ==> |free| == |old(free)| - TableNeed(Tables(old(mem), d), vp)
                         && Tables(mem, d) == Tables(old(mem), d) + {Pdx(vp)}
    {
      Indices(vp);
      PteParts(0, 0);
      assert FrameOk(mem, own, d) && TableAt(mem, own, d, Pdx(vp));
      var i := Pdx(vp);
      ExtendedRefl(mem, own, d);
      assert i in Tables(mem, d) <==> Present(mem[d][i]);
      assert i in Tables(mem, d) ==> Tables(mem, d) == Tables(mem, d) + {i};
      hide ListOk, Inv, Extended, FrameOk, Tables;
      if Present(mem[d][i]) {
        t := FrameOf(mem[d][i]);
      } else if !alloc {
        t := 0;
      } else {
        t := NewTable(d, i);
      }
      if t != 0 {
        TableFound(mem, own, d, i, t);
      }
    }

    /** One turn of mappages(): the entry of vp is set to page f. Below KERNBASE the directory takes
        over page f, which the caller holds. */
    method MapOne(d: int, vp: int, f: int, perm: int) returns (r: MapResult)
      requires Valid() && IsDir(own, d) && 0 <= vp < ENDPAGE && 0 <= perm < PGSIZE
      requires vp < KERNPAGE ==> f in own && own[f] == Held
      modifies this
      ensures Valid()
      ensures r == Mapped ==> MappedTo(old(mem), old(own), mem, own, d, vp, f, perm)
      ensures r != Mapped ==> own == old(own) && mem == old(mem) && free == old(free)
      ensures r == Remap <==> Present(Entry(old(mem), d, vp))
      ensures r == NoMem ==> |old(free)| < TableNeed(Tables(old(mem), d), vp)
      ensures r == Mapped ==> |free| == |old(free)| - TableNeed(Tables(old(mem), d), vp)
                              && Tables(mem, d) == Tables(old(mem), d) + {Pdx(vp)}
    {
      hide ListOk, Inv, Extended, Tables, TableNeed;
      var t := Walk(d, vp, true);
      ExtendedAt(old(mem), old(own), mem, own, d, vp);
      Present0(mem, own, d, vp, t);
      if t == 0 {
        return NoMem;
      }
      if Present(mem[t][Ptx(vp)]) {
        return Remap;
      }
      ghost var own' := if vp < KERNPAGE then own[f := User(d, vp)] else own;
      MapStep(old(mem), old(own), mem, own, d, vp, t, f, perm);
      SlotsKept(mem, d, t, mem[t][Ptx(vp) := MakePte(f, perm)]);
      ListFrame(mem, own, mem[t := mem[t][Ptx(vp) := MakePte(f, perm)]], own', free, freelist);
      mem := mem[t := mem[t][Ptx(vp) := MakePte(f, perm)]];
      own := own';
      r := Mapped;
    }

    /** mappages() in the kernel part: n pages from vp are mapped to the pages from f on. It stops
        after m pages when memory runs out or a page is mapped already. */
    method MapRange(d: int, vp: int, n: nat, f: int, perm: int) returns (r: MapResult, ghost m: nat)
      requires Valid() && IsDir(own, d) && KERNPAGE <= vp && 1 <= n && vp + n <= ENDPAGE && 0 <= perm < PGSIZE
      modifies this
      ensures Valid() && RangeMapped(old(mem), old(own), mem, own, d, vp, m, f, perm)
      ensures m <= n && (r == Mapped <==> m == n)
      ensures r == Remap ==> Present(Entry(old(mem), d, vp + m))
      ensures r == NoMem ==> |old(free)| < TablesNeeded(Tables(old(mem), d), vp, vp + n)
      ensures r == Mapped ==>
                && |free| == |old(free)| - TablesNeeded(Tables(old(mem), d), vp, vp + n)
                && Tables(mem, d) == Tables(old(mem), d) + PdxOf(vp, vp + n)
    {
      hide Inv, ListOk, Entry, Present, Tables, TableNeed, TablesNeeded, PdxOf, MappedTo, RangeMapped;
      var a, last := vp, vp + n - 1;
      m := 0;
      RangeNone(mem, own, d, vp, f, perm);
      ghost var ts := Tables(mem, d);
      TablesNone(ts, vp);
      while true
        invariant Valid() && a == vp + m && m < n && RangeMapped(old(mem), old(own), mem, own, d, vp, m, f, perm)
        invariant Tables(mem, d) == ts + PdxOf(vp, a) && |free| == |old(free)| - TablesNeeded(ts, vp, a)
        decreases n - m
      {
        ghost var mem1, own1 := mem, own;
        RangeDir(old(mem), old(own), mem, own, d, vp, m, f, perm);
        TablesStep(ts, vp, a);
        TablesGrow(ts, vp, a + 1, vp + n);
        r := MapOne(d, a, f + (a - vp), perm);
        RangeStep(old(mem), old(own), mem1, own1, mem, own, d, vp, m, f, perm);
        if r != Mapped {
          return;
        }
        m := m + 1;
        if a == last {
          return;
        }
        a := a + 1;
      }
    }

    /** deallocuvm()'s body for a present entry: free the page, clear the entry. Neither panic("kfree")
        can happen. */
    method FreePage(d: int, vp: int, t: int)
      requires Valid() && IsDir(own, d) && 0 <= vp < KERNPAGE
      requires t in own && own[t] == Table(d, Pdx(vp)) && 0 <= Ptx(vp) < ENTRIES && Present(mem[t][Ptx(vp)])
      modifies this
      ensures Valid() && Unmapped(old(mem), old(own), mem, own, d, vp)
    {
      hide ListOk, Inv, Present, Entry, Unmapped;
      ClearInv(mem, own, d, vp, t);
      var f := FrameOf(mem[t][Ptx(vp)]);
      assert f != 0;
      var ok := Kfree(f);
      assert ok;
      UnmapStep(old(mem), old(own), d, vp, t, mem[f]);
      ListFrame(mem, own, mem[t := mem[t][Ptx(vp) := 0]], own, free, freelist);
      mem := mem[t := mem[t][Ptx(vp) := 0]];
    }

    /** deallocuvm(): exactly the pages mapped between the two sizes are freed. */
    method DeallocUvm(d: int, oldsz: nat, newsz: nat) returns (sz: nat)
      requires Valid() && IsDir(own, d) && oldsz <= KERNPAGE * PGSIZE
      modifies this
      ensures Valid() && sz == if newsz >= oldsz then oldsz else newsz
      ensures Freed(old(mem), old(own), mem, own, d, Up(newsz), Up(oldsz))
      ensures DataOk(data) && KernelParts(old(mem), old(own), data) ==> KernelParts(mem, own, data)
    {
      FreedNone(mem, own, d, Up(newsz), Up(newsz));
      UpMonotone(newsz, oldsz);
      if newsz >= oldsz {
        FreedNone(mem, own, d, Up(newsz), Up(oldsz));
        return oldsz;
      }
      hide Inv, ListOk, Entry, Present, Freed, KernelParts;
      ghost var start, end := Up(newsz), Up(oldsz);
      var a := Up(newsz);
      while a * PGSIZE < oldsz
        invariant Valid() && start <= a && IsDir(own, d) && end <= KERNPAGE
        invariant Freed(old(mem), old(own), mem, own, d, start, Min(a, end))
        decreases oldsz - a * PGSIZE
      {
        UpLess(a, oldsz);
        var next := FreeAt(d, a, old(mem), old(own), start);
        FreedDir(old(mem), old(own), mem, own, d, start, end, Min(next, end));
        a := next;
      }
      UpLess(a, oldsz);
      if DataOk(data) && KernelParts(old(mem), old(own), data) {
        KernelFreed(old(mem), old(own), mem, own, d, start, end, data);
      }
      sz := newsz;
    }

    /** One turn of deallocuvm()'s loop at page a; the result is the page of the next turn. */
    method FreeAt(d: int, a: int, ghost mem0: Mem, ghost own0: Own, ghost start: int) returns (next: int)
      requires Valid() && IsDir(own, d) && 0 <= start <= a < KERNPAGE
      requires Inv(mem0, own0) && IsDir(own0, d) && Freed(mem0, own0, mem, own, d, start, a)
      modifies this
      ensures Valid() && next > a
      ensures forall b :: a < b <= next ==> Freed(mem0, own0, mem, own, d, start, b)
    {
      hide Inv, ListOk, Entry, Freed;
      var t := Walk(d, a, false);
      Present0(mem, own, d, a, t);
      if t == 0 {
        Indices(a);
        next := PageAt(Pdx(a) + 1, 0) - 1;
        JumpSkips(mem0, own0, mem, own, d, start, a);
      } else {
        FreedNext(mem0, own0, mem, own, d, start, a);
        if Present(mem[t][Ptx(a)]) {
          ghost var mem1, own1 := mem, own;
          FreePage(d, a, t);
          FreedStep(mem0, own0, mem1, own1, mem, own, d, start, a);
        }
        next := a;
      }
      next := next + 1;
    }

    /** freevm(): every page of directory d is freed, once, and no other. */
    method FreeVm(d: int)
      requires Valid() && IsDir(own, d)
      modifies this
      ensures Valid() && Destroyed(old(mem), old(own), mem, own, d)
      ensures DataOk(data) && KernelParts(old(mem), old(own), data) ==> KernelParts(mem, own, data)
    {
      hide Inv, ListOk, Entry, Present, KernelParts;
      var _ := DeallocUvm(d, KERNPAGE * PGSIZE, 0);
      FreedAll(old(mem), old(own), mem, own, d);
      RetireInv(mem, own, d);
      ListFrame(mem, own, mem, Retired(own, d), free, freelist);
      ghost var mem1, own1 := mem, own;
      own := Retired(own, d);
      RetiredNone(mem, own1, d);
      FreeTables(d, mem1, own1);
      ghost var mem2, own2 := mem, own;
      var _ := Kfree(d);
      RelabelInv(mem2, own2, d, mem[d], Free);
      DestroyedAll(old(mem), old(own), mem1, own1, mem2, own2, mem, own, d);
      if DataOk(data) && KernelParts(old(mem), old(own), data) {
        KernelDestroyed(old(mem), old(own), mem, own, d, data);
      }
    }

    /** freevm()'s loop over the directory. */
    method FreeTables(d: int, ghost mem1: Mem, ghost own1: Own)
      requires Valid() && Inv(mem1, own1) && IsDir(own1, d) && Emptied(mem1, own1, mem, own, d, 0)
      modifies this
      ensures Valid() && Emptied(mem1, own1, mem, own, d, ENTRIES)
    {
      hide Inv, ListOk, Entry, Emptied;
      for i := 0 to ENTRIES
        invariant Valid() && Emptied(mem1, own1, mem, own, d, i)
      {
        EmptiedAt(mem1, own1, mem, own, d, i);
        if Present(mem[d][i]) {
          ghost var mem2, own2 := mem, own;
          var t := FrameOf(mem[d][i]);
          var _ := Kfree(t);
          RelabelInv(mem2, own2, t, mem[t], Free);
          EmptiedStep(mem1, own1, mem2, own2, mem, own, d, i, t);
        } else {
          EmptiedSkip(mem1, own1, mem, own, d, i);
        }
      }
    }

    /** setupkvm(): a directory with the kernel's mappings only. It takes KVMPAGES pages and fails exactly if there
        are fewer; on failure every page taken is given back. */
    method SetupKvm() returns (d: int)
      requires Valid() && DataOk(data)
      modifies this
      ensures Valid()
      ensures d == 0 <==> |old(free)| < KVMPAGES
      ensures d != 0 ==> |free| == |old(free)| - KVMPAGES && Tables(mem, d) == RowPdx(data, 4)
      ensures d == 0 ==> own == old(own) && SameEntries(old(mem), mem, old(own)) && SameData(old(mem), mem, old(own))
      ensures d != 0 ==> Built(old(mem), old(own), mem, own, d, data, 4)
      ensures d != 0 ==> forall vp :: 0 <= vp < ENDPAGE ==> KernelLayout(Entry(mem, d, vp), data, vp)
      ensures KernelParts(old(mem), old(own), data) ==> KernelParts(mem, own, data)
    {
      hide ListOk, Inv, Entry, Built, Tables, RowPdx, SameEntries, SameData, Grew, Destroyed, KernelParts,
           KernelLayout;
      RowPdxSizes(data);
      d := Kalloc();
      if d == 0 {
        SameRefl(mem, own);
        return;
      }
      var page := seq(ENTRIES, _ => 0);
      BuiltNone(mem, old(own), free, freelist, d, page, data);
      NoSlots(mem, d, page);
      RowPdxNone(data);
      mem := mem[d := page];
      own := own[d := Dir];
      assert own == old(own)[d := Dir];
      assert KERNPAGE + PHYSPAGE <= DEVPAGE;
      for k := 0 to 4
        invariant Valid() && Built(old(mem), old(own), mem, own, d, data, k)
        invariant Tables(mem, d) == RowPdx(data, k) && |free| == |old(free)| - 1 - |RowPdx(data, k)|
      {
        var ok := BuildRow(d, k, old(mem), old(own));
        if !ok {
          ghost var mem2, own2 := mem, own;
          FreeVm(d);
          Restored(old(mem), old(own), mem2, own2, mem, own, d);
          if KernelParts(old(mem), old(own), data) {
            KernelSame(old(mem), old(own), mem, own, data);
          }
          return 0;
        }
      }
      BuiltLayout(old(mem), old(own), mem, own, d, data);
      if KernelParts(old(mem), old(own), data) {
        KernelBuilt(old(mem), old(own), mem, own, d, data);
      }
    }

    /** One row of kmap[]. */
    method BuildRow(d: int, k: int, ghost mem0: Mem, ghost own0: Own) returns (ok: bool)
      requires Valid() && DataOk(data) && 0 <= k < 4 && Built(mem0, own0, mem, own, d, data, k)
               && Tables(mem, d) == RowPdx(data, k)
      modifies this
      ensures Valid()
      ensures ok ==>
                && Built(mem0, own0, mem, own, d, data, k + 1)
                && Tables(mem, d) == RowPdx(data, k + 1)
                  && |free| == |old(free)| - (|RowPdx(data, k + 1)| - |RowPdx(data, k)|)
      ensures !ok ==>
                && |old(free)| < |RowPdx(data, k + 1)| - |RowPdx(data, k)|
                && IsDir(own, d) && d in own0 && own0[d] == Free && Grew(own0, own, d)
                && SameEntries(mem0, mem, own0) && SameData(mem0, mem, own0)
    {
      hide ListOk, Inv, Entry, Built, Tables, TablesNeeded, RowPdx, SameEntries, SameData, Grew, RangeMapped;
      ghost var mem1, own1 := mem, own;
      RowPdxStep(data, k);
      BuiltDir(mem0, own0, mem, own, d, data, k);
      var m := KmapAt(data, k);
      var r, done := MapRange(d, m.virt, m.n, m.phys, m.perm);
      BuiltNext(mem0, own0, mem1, own1, mem, own, d, data, k, done);
      ok := r == Mapped;
    }

    /** allocuvm(): zeroed user pages from oldsz up to newsz. On failure none of those pages is mapped
        any more, and only page tables stay with the directory. */
    method AllocUvm(d: int, oldsz: nat, newsz: nat) returns (r: AllocResult)
      requires Valid() && IsDir(own, d)
      modifies this
      ensures Valid()
      ensures newsz >= KERNPAGE * PGSIZE || newsz < oldsz ==> own == old(own) && mem == old(mem)
      ensures newsz >= KERNPAGE * PGSIZE ==> r == Size(0)
      ensures newsz < oldsz && newsz < KERNPAGE * PGSIZE ==> r == Size(oldsz)
      ensures r == Panicked <==>
                oldsz <= newsz < KERNPAGE * PGSIZE && MeetsMapped(old(mem), d, |old(free)|, Up(oldsz), Up(newsz))
      ensures oldsz <= newsz < KERNPAGE * PGSIZE && r.Size? ==>
                if |old(free)| >= AllocNeeds(Tables(old(mem), d), Up(oldsz), Up(newsz))
                then r == Size(newsz) && Grown(old(mem), old(own), mem, own, d, Up(oldsz), Up(newsz))
                else r == Size(0) && Undone(old(mem), old(own), mem, own, d, Up(oldsz), Up(newsz))
      ensures DataOk(data) && KernelParts(old(mem), old(own), data) && r.Size? ==> KernelParts(mem, own, data)
    {
      hide ListOk, Inv, Entry, Present, Grown, Undone, Tables, AllocNeeds, Up, KernelParts, MeetsMapped;
      if newsz >= KERNPAGE * PGSIZE {
        return Size(0);
      }
      if newsz < oldsz {
        return Size(oldsz);
      }
      r := GrowTo(d, oldsz, newsz);
      UpMonotone(0, newsz);
      if DataOk(data) && KernelParts(old(mem), old(own), data) && r.Size? {
        KernelGrown(old(mem), old(own), mem, own, d, Up(oldsz), Up(newsz), data);
      }
    }

    /** allocuvm()'s loop. */
    method GrowTo(d: int, oldsz: nat, newsz: nat) returns (r: AllocResult)
      requires Valid() && IsDir(own, d) && oldsz <= newsz < KERNPAGE * PGSIZE
      modifies this
      ensures Valid()
      ensures r == Panicked <==> MeetsMapped(old(mem), d, |old(free)|, Up(oldsz), Up(newsz))
      ensures r.Size? ==>
                if |old(free)| >= AllocNeeds(Tables(old(mem), d), Up(oldsz), Up(newsz))
                then r == Size(newsz) && Grown(old(mem), old(own), mem, own, d, Up(oldsz), Up(newsz))
                else r == Size(0) && Undone(old(mem), old(own), mem, own, d, Up(oldsz), Up(newsz))
    {
      hide ListOk, Inv, Entry, Present, Grown, Undone, Tables, AllocNeeds, TableNeed, PdxOf, MeetsMapped;
      UpMonotone(oldsz, newsz);
      ghost var start, end := Up(oldsz), Up(newsz);
      ghost var ts := Tables(mem, d);
      var a := Up(oldsz);
      GrownNone(mem, own, d, start);
      AllocNeedsNone(ts, start);
      while a * PGSIZE < newsz
        invariant Valid() && start <= a <= end <= KERNPAGE && Grown(old(mem), old(own), mem, own, d, start, a)
        invariant Tables(mem, d) == ts + PdxOf(start, a) && |free| == |old(free)| - AllocNeeds(ts, start, a)
        decreases newsz - a * PGSIZE
      {
        UpLess(a, newsz);
        AllocNeedsStep(ts, start, a, end);
        GrownFresh(old(mem), old(own), mem, own, d, start, a);
        GrownAt(old(mem), old(own), mem, own, d, start, a);
        ghost var mem1, left := mem, |free|;
        var res := AllocTurn(d, a, oldsz, newsz, old(mem), old(own));
        if res == Remap {
          MappedFirst(old(mem), mem1, d, |old(free)|, left, start, a, end);
          return Panicked;
        }
        if res == NoMem {
          ShortageFirst(old(mem), mem1, d, |old(free)|, left, start, a, end);
          return Size(0);
        }
        a := a + 1;
      }
      UpLess(a, newsz);
      GrownFresh(old(mem), old(own), mem, own, d, start, end);
      NoneMet(old(mem), d, |old(free)|, start, end);
      r := Size(newsz);
    }

    /** One turn of allocuvm()'s loop at page a, with the undoing when memory runs out. */
    method AllocTurn(d: int, a: int, oldsz: nat, newsz: nat, ghost mem0: Mem, ghost own0: Own) returns (r: MapResult)
      requires Valid() && Inv(mem0, own0) && IsDir(own0, d) && oldsz <= newsz <= KERNPAGE * PGSIZE
      requires Up(oldsz) <= a < Up(newsz) <= KERNPAGE && Grown(mem0, own0, mem, own, d, Up(oldsz), a)
      modifies this
      ensures Valid()
      ensures r == Mapped ==> Grown(mem0, own0, mem, own, d, Up(oldsz), a + 1)
      ensures r == Remap ==> Present(Entry(mem0, d, a)) && |old(free)| >= 1
      ensures r == NoMem ==> Undone(mem0, own0, mem, own, d, Up(oldsz), Up(newsz))
      ensures r == NoMem ==> |old(free)| < 1 + TableNeed(Tables(old(mem), d), a)
      ensures r == Mapped ==> |free| == |old(free)| - 1 - TableNeed(Tables(old(mem), d), a)
                              && Tables(mem, d) == Tables(old(mem), d) + {Pdx(a)}
    {
      hide ListOk, Inv, Entry, Present, Grown, Freed, MappedTo, Undone, Up, Tables, TableNeed;
      GrownDir(mem0, own0, mem, own, d, Up(oldsz), a);
      GrownAt(mem0, own0, mem, own, d, Up(oldsz), a);
      ghost var mem1, own1 := mem, own;
      var m := Kalloc();
      if m == 0 {
        var _ := DeallocUvm(d, newsz, oldsz);
        UndoneAll(mem0, own0, mem1, own1, mem, own, d, Up(oldsz), a, Up(newsz));
        return NoMem;
      }
      var page := seq(ENTRIES, _ => 0);
      RelabelInv(mem, own, m, page, Held);
      ListFrame(mem, own, mem[m := page], own, free, freelist);
      SlotsKept(mem, d, m, page);
      mem := mem[m := page];
      assert own[m := Held] == own;
      r := MapOne(d, a, m, PTE_W + PTE_U);
      if r == NoMem {
        ReturnPage(d, oldsz, newsz, m, mem1, own1, page);
        UndoneAll(mem0, own0, mem1, own1, mem, own, d, Up(oldsz), a, Up(newsz));
      } else if r == Mapped {
        GrownStep(mem0, own0, mem1, own1, mem, own, d, Up(oldsz), a, m, page);
      }
    }

    /** deallocuvm() and then kfree() of the page that could not be mapped. */
    method ReturnPage(d: int, oldsz: nat, newsz: nat, m: int, ghost mem1: Mem, ghost own1: Own, ghost page: seq<int>)
      requires Valid() && Inv(mem1, own1) && m in own1 && own1[m] == Free && |page| == ENTRIES
      requires mem == mem1[m := page] && own == own1[m := Held] && IsDir(own, d) && newsz <= KERNPAGE * PGSIZE
      modifies this
      ensures Valid() && Freed(mem1, own1, mem, own, d, Up(oldsz), Up(newsz))
    {
      hide ListOk, Inv, Entry, Present, Freed, Up;
      var _ := DeallocUvm(d, newsz, oldsz);
      ghost var mem2, own2 := mem, own;
      FreedHeld(mem1, own1, mem2, own2, d, Up(oldsz), Up(newsz), m, page);
      var _ := Kfree(m);
      RelabelInv(mem2, own2, m, mem[m], Free);
      FreedAside(mem1, own1, mem2, own2, mem, own, d, Up(oldsz), Up(newsz), m, page);
    }

    /** copyuvm(): a new directory in which every user page below sz is a copy, with the same flags, on
        a page of its own. It panics only if a page below sz is not mapped; otherwise it fails exactly if there are
        too few free pages, and then every page taken is given back. */
    method CopyUvm(d: int, sz: nat) returns (r: CopyResult)
      requires Valid() && DataOk(data) && IsDir(own, d) && sz <= KERNPAGE * PGSIZE
      modifies this
      ensures Valid()
      ensures r.Child? ==> Copied(old(mem), old(own), mem, own, d, r.pgdir, data, Up(sz))
      ensures r.OutOfMemory? ==>
                own == old(own) && SameEntries(old(mem), mem, old(own)) && SameData(old(mem), mem, old(own))
      ensures r.Child? ==> forall vp :: KERNPAGE <= vp < ENDPAGE ==> KernelLayout(Entry(mem, r.pgdir, vp), data, vp)
      ensures r.Bad? <==> MeetsHole(old(mem), d, |old(free)|, Up(sz))
      ensures !r.Bad? ==> (r.Child? <==> |old(free)| >= CopyNeeds(Up(sz)))
      ensures !r.Bad? && KernelParts(old(mem), old(own), data) ==> KernelParts(mem, own, data)
    {
      hide ListOk, Inv, Entry, Present, Built, Copied, SameEntries, SameData, Destroyed, Tables, RowPdx, AllocNeeds,
           CopyNeeds, KernelParts, MeetsHole, KernelLayout;
      ghost var ts := RowPdx(data, 4);
      UpMonotone(0, sz);
      CopyCost(data, Up(sz));
      AllocNeedsNone(ts, 0);
      var c := SetupKvm();
      if c == 0 {
        TooFew(old(mem), d, |old(free)|, Up(sz));
        return OutOfMemory;
      }
      CopiedNone(old(mem), old(own), mem, own, d, c, data);
      var i := 0;
      while i * PGSIZE < sz
        invariant Valid() && 0 <= i <= Up(sz) <= KERNPAGE && Copied(old(mem), old(own), mem, own, d, c, data, i)
        invariant Tables(mem, c) == ts + PdxOf(0, i) && |free| == |old(free)| - KVMPAGES - AllocNeeds(ts, 0, i)
        decreases sz - i * PGSIZE
      {
        UpLess(i, sz);
        AllocNeedsStep(ts, 0, i, Up(sz));
        CopyCost(data, i);
        CopyCost(data, i + 1);
        CopiedPresent(old(mem), old(own), mem, own, d, c, data, i);
        var turn := CopyTurn(d, c, i, old(mem), old(own));
        if turn == Remap {
          assert FirstPage(old(mem), d, 0, i, false);
          HoleFirst(old(mem), d, |old(free)|, i, Up(sz));
          return Bad;
        }
        if turn == NoMem {
          ghost var mem2, own2 := mem, own;
          ShortageBeforeHole(old(mem), d, |old(free)|, i, Up(sz));
          FreeVm(c);
          Restored(old(mem), old(own), mem2, own2, mem, own, c);
          if KernelParts(old(mem), old(own), data) {
            KernelSame(old(mem), old(own), mem, own, data);
          }
          return OutOfMemory;
        }
        i := i + 1;
      }
      UpLess(i, sz);
      CopiedPresent(old(mem), old(own), mem, own, d, c, data, i);
      NoHoleMet(old(mem), d, |old(free)|, i);
      CopiedLayout(old(mem), old(own), mem, own, d, c, data, i);
      if KernelParts(old(mem), old(own), data) {
        KernelCopied(old(mem), old(own), mem, own, d, c, data, i);
      }
      r := Child(c);
    }

    /** One turn of copyuvm()'s loop at page i; Remap stands for its two panics. */
    method CopyTurn(d: int, c: int, i: int, ghost mem0: Mem, ghost own0: Own) returns (r: MapResult)
      requires Valid() && DataOk(data) && Inv(mem0, own0) && IsDir(own0, d) && 0 <= i < KERNPAGE
      requires Copied(mem0, own0, mem, own, d, c, data, i)
      modifies this
      ensures Valid()
      ensures r == Mapped ==> Copied(mem0, own0, mem, own, d, c, data, i + 1)
      ensures r == Remap <==> !Present(Entry(mem0, d, i))
      ensures r == NoMem ==> Begun(mem0, own0, mem, own, c)
      ensures r == NoMem ==> |old(free)| < 1 + TableNeed(Tables(old(mem), c), i)
      ensures r == Mapped ==> |free| == |old(free)| - 1 - TableNeed(Tables(old(mem), c), i)
                              && Tables(mem, c) == Tables(old(mem), c) + {Pdx(i)}
    {
      hide ListOk, Inv, Entry, Copied, Begun, MappedTo, Tables, TableNeed;
      CopiedDirs(mem0, own0, mem, own, d, c, data, i);
      ghost var mem1, own1 := mem, own;
      var t := Walk(d, i, false);
      Present0(mem, own, d, i, t);
      if t == 0 || !Present(mem[t][Ptx(i)]) {
        return Remap;
      }
      EntryUser(mem, own, d, i);
      var f, flags := FrameOf(mem[t][Ptx(i)]), FlagsOf(mem[t][Ptx(i)]);
      var m := Kalloc();
      if m == 0 {
        return NoMem;
      }
      RelabelInv(mem, own, m, mem[f], Held);
      ListFrame(mem, own, mem[m := mem[f]], own, free, freelist);
      SlotsKept(mem, c, m, mem[f]);
      mem := mem[m := mem[f]];
      assert own[m := Held] == own;
      r := MapOne(c, i, m, flags);
      if r == NoMem {
        ghost var mem2, own2 := mem, own;
        var _ := Kfree(m);
        RelabelInv(mem2, own2, m, mem[m], Free);
        BegunAgain(mem0, own0, mem1, own1, mem, own, c, m);
      } else {
        CopiedStep(mem0, own0, mem1, own1, mem, own, d, c, data, i, m);
      }
    }
  }
}
