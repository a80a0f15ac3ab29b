/**
 Page directories, page tables and user pages, and the free list they come from.

 Frames are numbered; a frame is on the free list, or it is a directory, a page table or a user
 page, or somebody has just taken it. `towner` and `powner` say for each table and each user page
 which directory slot or virtual page refers to it.
 */
module FrameTable {
  import opened Blocks

  /** Entries in a directory and in a page table. */
  const ENTRIES: nat := 1024

  /** User addresses are below KERNBASE: the first half of every directory. */
  const USERPAGES: nat := 0x8_0000
  const ALLPAGES: nat := 0x10_0000

  datatype Pte = Absent | Pte(pa: nat, flags: nat)

  datatype Slot = Slot(dir: nat, i: nat)

  datatype Home = Home(dir: nat, vpn: nat)

  type Page = seq<Byte>

  datatype Mem = Mem(
    free: seq<nat>,
    dirs: map<nat, seq<nat>>,
    tables: map<nat, seq<Pte>>,
    pages: map<nat, Page>,
    towner: map<nat, Slot>,
    powner: map<nat, Home>)

  /** Every managed frame has one use, and only one. */
  ghost predicate Partition(all: set<nat>, free: seq<nat>, dirs: set<nat>, tables: set<nat>, pages: set<nat>,
                            loose: set<nat>) {
    && 0 !in all
    && (forall i, j :: 0 <= i < j < |free| ==> free[i] != free[j])
    && (forall f: nat :: f in all <==> f in free || f in dirs || f in tables || f in pages || f in loose)
    && (forall f :: f in free ==> f !in dirs && f !in tables && f !in pages && f !in loose)
    && dirs !! tables && dirs !! pages && dirs !! loose && tables !! pages && tables !! loose && pages !! loose
  }

  ghost predicate FramesOk(all: set<nat>, m: Mem, loose: set<nat>) {
    Partition(all, m.free, m.dirs.Keys, m.tables.Keys, m.pages.Keys, loose)
  }

  lemma Taken(all: set<nat>, free: seq<nat>, dirs: set<nat>, tables: set<nat>, pages: set<nat>, loose: set<nat>)
    requires Partition(all, free, dirs, tables, pages, loose) && free != []
    ensures Partition(all, free[1..], dirs, tables, pages, loose + {free[0]}) && free[0] !in loose && free[0] != 0
    ensures forall f: nat :: f in free <==> f in free[1..] || f == free[0]
    ensures free[0] !in free[1..]
  {
    assert free == [free[0]] + free[1..];
    assert free[0] in free;
  }

  lemma Given(all: set<nat>, free: seq<nat>, dirs: set<nat>, tables: set<nat>, pages: set<nat>, loose: set<nat>, f: nat)
    requires Partition(all, free, dirs, tables, pages, loose) && f in loose
    ensures Partition(all, [f] + free, dirs, tables, pages, loose - {f}) && f !in free
  {
  }

  lemma MadeTable(all: set<nat>, free: seq<nat>, dirs: set<nat>, tables: set<nat>, pages: set<nat>, loose: set<nat>,
                  f: nat)
    requires Partition(all, free, dirs, tables, pages, loose) && f in loose
    ensures Partition(all, free, dirs, tables + {f}, pages, loose - {f}) && f !in tables && f != 0
  {
  }

  lemma MadePage(all: set<nat>, free: seq<nat>, dirs: set<nat>, tables: set<nat>, pages: set<nat>, loose: set<nat>,
                 f: nat)
    requires Partition(all, free, dirs, tables, pages, loose) && f in loose
    ensures Partition(all, free, dirs, tables, pages + {f}, loose - {f}) && f !in pages
  {
  }

  lemma DroppedPage(all: set<nat>, free: seq<nat>, dirs: set<nat>, tables: set<nat>, pages: set<nat>, loose: set<nat>,
                    f: nat)
    requires Partition(all, free, dirs, tables, pages, loose) && f in pages
    ensures Partition(all, [f] + free, dirs, tables, pages - {f}, loose) && f !in free && f != 0
  {
  }

  lemma MadeDir(all: set<nat>, free: seq<nat>, dirs: set<nat>, tables: set<nat>, pages: set<nat>, loose: set<nat>,
                f: nat)
    requires Partition(all, free, dirs, tables, pages, loose) && f in loose
    ensures Partition(all, free, dirs + {f}, tables, pages, loose - {f}) && f !in dirs && f !in tables && f != 0
  {
  }

  lemma DroppedDir(all: set<nat>, free: seq<nat>, dirs: set<nat>, tables: set<nat>, pages: set<nat>, loose: set<nat>,
                   d: nat, ts: set<nat>)
    requires Partition(all, free, dirs, tables, pages, loose) && d in dirs && ts <= tables
    ensures Partition(all, free, dirs - {d}, tables - ts, pages, loose + {d} + ts) && d !in ts
  {
  }

  lemma SameFree(all: set<nat>, free: seq<nat>, free': seq<nat>, dirs: set<nat>, tables: set<nat>, pages: set<nat>,
                 loose: set<nat>)
    requires Partition(all, free, dirs, tables, pages, loose) && Partition(all, free', dirs, tables, pages, loose)
    ensures forall f: nat :: f in free' <==> f in free
  {
  }

  ghost predicate Shapes(m: Mem) {
    && (forall d :: d in m.dirs ==> |m.dirs[d]| == ENTRIES)
    && (forall t :: t in m.tables ==> |m.tables[t]| == ENTRIES)
  }

  predicate SlotOk(m: Mem, d: nat, i: nat)
    requires d in m.dirs && i < |m.dirs[d]|
  {
    var t := m.dirs[d][i];
    t != 0 ==> t in m.tables && t in m.towner && m.towner[t] == Slot(d, i)
  }

  /** A table is in exactly one directory slot. */
  ghost predicate TablesOk(m: Mem) {
    && Shapes(m)
    && (forall d, i :: d in m.dirs && 0 <= i < ENTRIES ==> SlotOk(m, d, i))
    && (forall t :: t in m.tables ==>
          t != 0 && t in m.towner && m.towner[t].i < ENTRIES && m.towner[t].dir in m.dirs &&
            m.dirs[m.towner[t].dir][m.towner[t].i] == t)
  }

  /** The page table entry for a virtual page. */
  function Lookup(m: Mem, d: nat, vpn: nat): Pte
    requires d in m.dirs && vpn < ALLPAGES
  {
    var i := vpn / ENTRIES;
    if i < |m.dirs[d]| && m.dirs[d][i] in m.tables && vpn % ENTRIES < |m.tables[m.dirs[d][i]]|
    then m.tables[m.dirs[d][i]][vpn % ENTRIES] else Absent
  }

  /** Which entry of which table maps a virtual address. */
  lemma EntryAt(m: Mem, d: nat, i: nat, j: nat, o: nat)
    requires Shapes(m) && d in m.dirs && i < 1024 && j < 1024 && o < 4096
    ensures var a := i * 0x40_0000 + j * 0x1000 + o;
            && a / 4096 < ALLPAGES
            && Lookup(m, d, a / 4096) == if m.dirs[d][i] in m.tables then m.tables[m.dirs[d][i]][j] else Absent
  {
    var a := i * 0x40_0000 + j * 0x1000 + o;
    assert a / 4096 == i * 1024 + j;
  }

  ghost predicate MappingOk(m: Mem, d: nat, vpn: nat)
    requires d in m.dirs && vpn < USERPAGES
  {
    var p := Lookup(m, d, vpn);
    p.Pte? ==> p.pa in m.pages && p.pa in m.powner && m.powner[p.pa] == Home(d, vpn)
  }

  ghost predicate PageMapped(m: Mem, f: nat)
    requires f in m.pages
  {
    && f in m.powner && m.powner[f].dir in m.dirs && m.powner[f].vpn < USERPAGES
    && var p := Lookup(m, m.powner[f].dir, m.powner[f].vpn); p.Pte? && p.pa == f
  }

  /** A user page is mapped at exactly one virtual page of one directory. */
  ghost predicate PagesOk(m: Mem) {
    && (forall d, vpn: nat :: d in m.dirs && vpn < USERPAGES ==> MappingOk(m, d, vpn))
    && (forall f :: f in m.pages ==> PageMapped(m, f))
  }

  ghost predicate Inv(all: set<nat>, m: Mem, loose: set<nat>) {
    FramesOk(all, m, loose) && TablesOk(m) && PagesOk(m)
  }

  /** Directory `d` has the same entries in `m` and `m'`. */
  ghost predicate SameDir(m: Mem, m': Mem, d: nat)
    requires d in m.dirs && d in m'.dirs
  {
    forall vpn: nat :: vpn < ALLPAGES ==> Lookup(m', d, vpn) == Lookup(m, d, vpn)
  }

  // ---------------------------------------------------------------------------
  // kalloc and kfree

  lemma TakeFrame(all: set<nat>, m: Mem, loose: set<nat>)
    requires Inv(all, m, loose) && m.free != []
    ensures Inv(all, m.(free := m.free[1..]), loose + {m.free[0]}) && m.free[0] !in loose && m.free[0] != 0
    ensures forall f: nat :: f in m.free <==> f in m.free[1..] || f == m.free[0]
    ensures m.free[0] !in m.free[1..]
  {
    hide Partition, TablesOk, PagesOk;
    Taken(all, m.free, m.dirs.Keys, m.tables.Keys, m.pages.Keys, loose);
    TablesFrom(m, m.(free := m.free[1..]));
    PagesStay(m, m.(free := m.free[1..]));
  }

  lemma GiveFrame(all: set<nat>, m: Mem, loose: set<nat>, f: nat)
    requires Inv(all, m, loose) && f in loose
    ensures Inv(all, m.(free := [f] + m.free), loose - {f}) && f !in m.free
  {
    hide Partition, TablesOk, PagesOk;
    Given(all, m.free, m.dirs.Keys, m.tables.Keys, m.pages.Keys, loose, f);
    TablesFrom(m, m.(free := [f] + m.free));
    PagesStay(m, m.(free := [f] + m.free));
  }

  /** The free list does not matter to the mappings. */
  lemma PagesStay(m: Mem, m': Mem)
    requires PagesOk(m) && m' == m.(free := m'.free)
    ensures PagesOk(m')
  {
    forall d, vpn: nat | d in m'.dirs && vpn < USERPAGES
      ensures MappingOk(m', d, vpn)
    {
      assert MappingOk(m, d, vpn);
    }
    forall f | f in m'.pages
      ensures PageMapped(m', f)
    {
      assert PageMapped(m, f);
    }
  }

  // ---------------------------------------------------------------------------
  // Page tables

  function NoEntries(): (r: seq<Pte>)
    ensures |r| == ENTRIES && forall i :: 0 <= i < ENTRIES ==> r[i] == Absent
  {
    seq(ENTRIES, _ => Absent)
  }

  /** walkpgdir puts a new, empty table into slot `i` of directory `d`. */
  function WithTable(m: Mem, d: nat, i: nat, t: nat): Mem
    requires d in m.dirs && i < |m.dirs[d]|
  {
    var entries: seq<nat> := m.dirs[d][i := t];
    m.(dirs := m.dirs[d := entries], tables := m.tables[t := NoEntries()], towner := m.towner[t := Slot(d, i)])
  }

  lemma TableLookup(m: Mem, d: nat, i: nat, t: nat, d': nat)
    requires TablesOk(m) && d in m.dirs && i < ENTRIES && m.dirs[d][i] == 0 && t !in m.tables && t != 0 && d' in m.dirs
    ensures SameDir(m, WithTable(m, d, i, t), d')
  {
    var m' := WithTable(m, d, i, t);
    forall vpn: nat | vpn < ALLPAGES
      ensures Lookup(m', d', vpn) == Lookup(m, d', vpn)
    {
      assert SlotOk(m, d', vpn / ENTRIES);
    }
  }

  lemma TableTables(m: Mem, d: nat, i: nat, t: nat)
    requires TablesOk(m) && d in m.dirs && i < ENTRIES && m.dirs[d][i] == 0 && t !in m.tables && t != 0
    ensures TablesOk(WithTable(m, d, i, t))
  {
    var m' := WithTable(m, d, i, t);
    forall d', i' | d' in m'.dirs && 0 <= i' < ENTRIES
      ensures SlotOk(m', d', i')
    {
      assert SlotOk(m, d', i');
    }
  }

  lemma TablePlaced(all: set<nat>, m: Mem, loose: set<nat>, d: nat, i: nat, t: nat)
    requires Inv(all, m, loose) && d in m.dirs && i < |m.dirs[d]| == ENTRIES && m.dirs[d][i] == 0 && t in loose
    ensures Inv(all, WithTable(m, d, i, t), loose - {t})
    ensures forall d' :: d' in m.dirs ==> SameDir(m, WithTable(m, d, i, t), d')
  {
    hide Partition, TablesOk, PagesOk, Lookup;
    var m' := WithTable(m, d, i, t);
    MadeTable(all, m.free, m.dirs.Keys, m.tables.Keys, m.pages.Keys, loose, t);
    assert m'.dirs.Keys == m.dirs.Keys && m'.tables.Keys == m.tables.Keys + {t};
    TableTables(m, d, i, t);
    forall d' | d' in m.dirs
      ensures SameDir(m, m', d')
    {
      TableLookup(m, d, i, t, d');
    }
    SameMappings(m, m');
  }

  /** The mappings are all that matters to the user pages. */
  lemma SameMappings(m: Mem, m': Mem)
    requires PagesOk(m) && m'.dirs.Keys == m.dirs.Keys && m'.pages == m.pages && m'.powner == m.powner
    requires forall d :: d in m.dirs ==> forall vpn: nat :: vpn < USERPAGES ==> Lookup(m', d, vpn) == Lookup(m, d, vpn)
    ensures PagesOk(m')
  {
    forall d, vpn: nat | d in m'.dirs && vpn < USERPAGES
      ensures MappingOk(m', d, vpn)
    {
      assert MappingOk(m, d, vpn);
    }
    forall f | f in m'.pages
      ensures PageMapped(m', f)
    {
      assert PageMapped(m, f);
    }
  }

  // ---------------------------------------------------------------------------
  // Entries

  /** One page table entry is written. */
  function WithEntry(m: Mem, t: nat, j: nat, p: Pte): Mem
    requires t in m.tables && j < |m.tables[t]|
  {
    m.(tables := m.tables[t := m.tables[t][j := p]])
  }

  /** It is the entry of one virtual page of one directory. */
  lemma EntryLookup(m: Mem, t: nat, j: nat, p: Pte, d: nat, i: nat, d': nat, vpn: nat)
    requires TablesOk(m) && t in m.tables && j < ENTRIES && m.towner[t] == Slot(d, i) && d' in m.dirs && vpn < ALLPAGES
    ensures Lookup(WithEntry(m, t, j, p), d', vpn) == if d' == d && vpn == i * ENTRIES + j then p
            else Lookup(m, d', vpn)
  {
    assert SlotOk(m, d', vpn / ENTRIES);
  }

  lemma EntryTables(m: Mem, t: nat, j: nat, p: Pte)
    requires TablesOk(m) && t in m.tables && j < ENTRIES
    ensures TablesOk(WithEntry(m, t, j, p))
  {
    var m' := WithEntry(m, t, j, p);
    forall d, i | d in m'.dirs && 0 <= i < ENTRIES
      ensures SlotOk(m', d, i)
    {
      assert SlotOk(m, d, i);
    }
  }

  /** A kernel mapping owns nothing. */
  lemma KernelMapped(all: set<nat>, m: Mem, loose: set<nat>, t: nat, j: nat, p: Pte)
    requires Inv(all, m, loose) && t in m.tables && j < ENTRIES && m.towner[t].i * ENTRIES >= USERPAGES
    ensures Inv(all, WithEntry(m, t, j, p), loose)
  {
    var m' := WithEntry(m, t, j, p);
    EntryTables(m, t, j, p);
    forall d, vpn: nat | d in m.dirs && vpn < USERPAGES
      ensures Lookup(m', d, vpn) == Lookup(m, d, vpn)
    {
      EntryLookup(m, t, j, p, m.towner[t].dir, m.towner[t].i, d, vpn);
    }
    SameMappings(m, m');
  }

  /** A frame that was just taken becomes the user page `vpn` of directory `d`. */
  function WithPage(m: Mem, d: nat, vpn: nat, f: nat, flags: nat, page: Page): Mem
    requires d in m.dirs && vpn / ENTRIES < |m.dirs[d]| && m.dirs[d][vpn / ENTRIES] in m.tables
    requires vpn % ENTRIES < |m.tables[m.dirs[d][vpn / ENTRIES]]|
  {
    WithEntry(m, m.dirs[d][vpn / ENTRIES], vpn % ENTRIES, Pte(f, flags)).(pages := m.pages[f := page],
        powner := m.powner[f := Home(d, vpn)])
  }

  lemma PagePlaced(all: set<nat>, m: Mem, loose: set<nat>, d: nat, vpn: nat, f: nat, flags: nat, page: Page)
    requires Inv(all, m, loose) && d in m.dirs && vpn < USERPAGES && |m.dirs[d]| == ENTRIES &&
             m.dirs[d][vpn / ENTRIES] != 0
    requires Lookup(m, d, vpn) == Absent && f in loose
    ensures TableThere(m, d, vpn)
    ensures Inv(all, WithPage(m, d, vpn, f, flags, page), loose - {f})
    ensures forall d', v: nat :: d' in m.dirs && v < ALLPAGES ==>
              Lookup(WithPage(m, d, vpn, f, flags, page), d', v) == if d' == d && v == vpn then Pte(f, flags)
                else Lookup(m, d', v)
  {
    hide Partition, TablesOk, PagesOk, Lookup;
    ItsTable(m, d, vpn);
    var t, j := m.dirs[d][vpn / ENTRIES], vpn % ENTRIES;
    var m1 := WithEntry(m, t, j, Pte(f, flags));
    var m' := WithPage(m, d, vpn, f, flags, page);
    EntryTables(m, t, j, Pte(f, flags));
    TablesFrom(m1, m');
    forall d', v: nat | d' in m.dirs && v < ALLPAGES
      ensures Lookup(m', d', v) == if d' == d && v == vpn then Pte(f, flags) else Lookup(m, d', v)
    {
      EntryLookup(m, t, j, Pte(f, flags), d, vpn / ENTRIES, d', v);
      LookupFrom(m1, m', d', v);
    }
    MadePage(all, m.free, m.dirs.Keys, m.tables.Keys, m.pages.Keys, loose, f);
    assert m'.tables.Keys == m.tables.Keys && m'.pages.Keys == m.pages.Keys + {f};
    PagesWith(m, m', d, vpn, f);
  }

  predicate TableThere(m: Mem, d: nat, vpn: nat) {
    && d in m.dirs && vpn / ENTRIES < |m.dirs[d]| && m.dirs[d][vpn / ENTRIES] in m.tables
    && vpn % ENTRIES < |m.tables[m.dirs[d][vpn / ENTRIES]]|
  }

  lemma ItsTable(m: Mem, d: nat, vpn: nat)
    requires TablesOk(m) && d in m.dirs && vpn < ALLPAGES && |m.dirs[d]| == ENTRIES && m.dirs[d][vpn / ENTRIES] != 0
    ensures TableThere(m, d, vpn) && |m.tables[m.dirs[d][vpn / ENTRIES]]| == ENTRIES
    ensures m.dirs[d][vpn / ENTRIES] in m.towner && m.towner[m.dirs[d][vpn / ENTRIES]] == Slot(d, vpn / ENTRIES)
  {
    assert SlotOk(m, d, vpn / ENTRIES);
  }

  lemma LookupFrom(m1: Mem, m': Mem, d: nat, v: nat)
    requires m'.dirs == m1.dirs && m'.tables == m1.tables && d in m1.dirs && v < ALLPAGES
    ensures Lookup(m', d, v) == Lookup(m1, d, v)
  {
  }

  lemma TablesFrom(m1: Mem, m': Mem)
    requires TablesOk(m1) && m'.dirs == m1.dirs && m'.tables == m1.tables && m'.towner == m1.towner
    ensures TablesOk(m')
  {
    forall d, i | d in m'.dirs && 0 <= i < ENTRIES
      ensures SlotOk(m', d, i)
    {
      assert SlotOk(m1, d, i);
    }
  }

  lemma PagesWith(m: Mem, m': Mem, d: nat, vpn: nat, f: nat)
    requires PagesOk(m) && d in m.dirs && vpn < USERPAGES && Lookup(m, d, vpn) == Absent && f !in m.pages
    requires m'.dirs.Keys == m.dirs.Keys && m'.powner == m.powner[f := Home(d, vpn)] &&
             m'.pages.Keys == m.pages.Keys + {f}
    requires Lookup(m', d, vpn).Pte? && Lookup(m', d, vpn).pa == f
    requires forall d', v: nat :: d' in m.dirs && v < ALLPAGES && !(d' == d && v == vpn) ==>
               Lookup(m', d', v) == Lookup(m, d', v)
    ensures PagesOk(m')
  {
    forall d', v: nat | d' in m'.dirs && v < USERPAGES
      ensures MappingOk(m', d', v)
    {
      assert MappingOk(m, d', v);
    }
    forall g | g in m'.pages
      ensures PageMapped(m', g)
    {
      assert g != f ==> PageMapped(m, g);
    }
  }

  /** User page `vpn` of directory `d` is unmapped and its frame given back. */
  function WithoutPage(m: Mem, d: nat, vpn: nat, f: nat): Mem
    requires d in m.dirs && vpn / ENTRIES < |m.dirs[d]| && m.dirs[d][vpn / ENTRIES] in m.tables
    requires vpn % ENTRIES < |m.tables[m.dirs[d][vpn / ENTRIES]]|
  {
    WithEntry(m, m.dirs[d][vpn / ENTRIES], vpn % ENTRIES, Absent).(pages := m.pages - {f}, powner := m.powner - {f},
        free := [f] + m.free)
  }

  lemma PageRemoved(all: set<nat>, m: Mem, loose: set<nat>, d: nat, vpn: nat, f: nat, m': Mem)
    requires Inv(all, m, loose) && d in m.dirs && vpn < USERPAGES && Lookup(m, d, vpn).Pte? && Lookup(m, d, vpn).pa == f
    requires TableThere(m, d, vpn) && m' == WithoutPage(m, d, vpn, f)
    ensures f in m.pages && f in m.powner && m.powner[f] == Home(d, vpn) && f !in m.free && f != 0
    ensures Inv(all, m', loose)
    ensures forall d', v: nat :: d' in m.dirs && v < ALLPAGES ==>
              Lookup(m', d', v) == if d' == d && v == vpn then Absent else Lookup(m, d', v)
  {
    hide Partition, TablesOk, PagesOk, Lookup;
    Mapped(m, d, vpn);
    var t, j := m.dirs[d][vpn / ENTRIES], vpn % ENTRIES;
    assert |m.dirs[d]| == ENTRIES by { Sizes(m, d); }
    SlotOfTable(m, d, vpn);
    var m1 := WithEntry(m, t, j, Absent);
    EntryTables(m, t, j, Absent);
    TablesFrom(m1, m');
    forall d', v: nat | d' in m.dirs && v < ALLPAGES
      ensures Lookup(m', d', v) == if d' == d && v == vpn then Absent else Lookup(m, d', v)
    {
      EntryLookup(m, t, j, Absent, d, vpn / ENTRIES, d', v);
      LookupFrom(m1, m', d', v);
    }
    DroppedPage(all, m.free, m.dirs.Keys, m.tables.Keys, m.pages.Keys, loose, f);
    assert m'.tables.Keys == m.tables.Keys && m'.pages.Keys == m.pages.Keys - {f};
    PagesWithout(m, m', d, vpn, f);
  }

  lemma Sizes(m: Mem, d: nat)
    requires TablesOk(m) && d in m.dirs
    ensures |m.dirs[d]| == ENTRIES
  {
  }

  lemma SlotOfTable(m: Mem, d: nat, vpn: nat)
    requires TablesOk(m) && vpn < ALLPAGES && TableThere(m, d, vpn)
    ensures m.dirs[d][vpn / ENTRIES] != 0 && m.dirs[d][vpn / ENTRIES] in m.towner
    ensures m.towner[m.dirs[d][vpn / ENTRIES]] == Slot(d, vpn / ENTRIES)
  {
    assert SlotOk(m, d, vpn / ENTRIES);
  }

  lemma Mapped(m: Mem, d: nat, vpn: nat)
    requires PagesOk(m) && d in m.dirs && vpn < USERPAGES && Lookup(m, d, vpn).Pte?
    ensures var f := Lookup(m, d, vpn).pa; f in m.pages && f in m.powner && m.powner[f] == Home(d, vpn)
  {
    assert MappingOk(m, d, vpn);
  }

  lemma PagesWithout(m: Mem, m': Mem, d: nat, vpn: nat, f: nat)
    requires PagesOk(m) && d in m.dirs && vpn < USERPAGES && f in m.pages && f in m.powner &&
             m.powner[f] == Home(d, vpn)
    requires m'.dirs.Keys == m.dirs.Keys && m'.powner == m.powner - {f} && m'.pages == m.pages - {f}
    requires Lookup(m', d, vpn) == Absent
    requires forall d', v: nat :: d' in m.dirs && v < ALLPAGES && !(d' == d && v == vpn) ==>
               Lookup(m', d', v) == Lookup(m, d', v)
    ensures PagesOk(m')
  {
    forall d', v: nat | d' in m'.dirs && v < USERPAGES
      ensures MappingOk(m', d', v)
    {
      assert MappingOk(m, d', v);
    }
    forall g | g in m'.pages
      ensures PageMapped(m', g)
    {
      assert PageMapped(m, g) && PageMapped(m, f);
    }
  }

  // ---------------------------------------------------------------------------
  // What belongs to other directories

  ghost predicate OtherTable(m: Mem, d: nat, t: nat) {
    t in m.tables && t in m.towner && m.towner[t].dir != d
  }

  ghost predicate OtherPage(m: Mem, d: nat, f: nat) {
    f in m.pages && f in m.powner && m.powner[f].dir != d
  }

  /** Nothing has changed but what belongs to directory `d`. */
  ghost predicate Frame(m: Mem, m': Mem, d: nat) {
    && (forall d' :: d' != d ==> (d' in m.dirs <==> d' in m'.dirs))
    && (forall d' :: d' in m.dirs && d' != d ==> m'.dirs[d'] == m.dirs[d'])
    && (forall t :: OtherTable(m, d, t) <==> OtherTable(m', d, t))
    && (forall t :: OtherTable(m, d, t) ==> m'.tables[t] == m.tables[t] && m'.towner[t] == m.towner[t])
    && (forall f :: OtherPage(m, d, f) <==> OtherPage(m', d, f))
    && (forall f :: OtherPage(m, d, f) ==> m'.pages[f] == m.pages[f] && m'.powner[f] == m.powner[f])
  }

  lemma FrameThen(m: Mem, m1: Mem, m2: Mem, d: nat)
    requires Frame(m, m1, d) && Frame(m1, m2, d)
    ensures Frame(m, m2, d)
  {
  }

  lemma FrameSelf(m: Mem, d: nat)
    ensures Frame(m, m, d)
  {
  }

  lemma SameDirFrom(m: Mem, m': Mem, d: nat)
    requires m'.dirs == m.dirs && m'.tables == m.tables && d in m.dirs
    ensures SameDir(m, m', d)
  {
  }

  lemma SameDirThen(m: Mem, m1: Mem, m2: Mem, d: nat)
    requires d in m.dirs && d in m1.dirs && d in m2.dirs && SameDir(m, m1, d) && SameDir(m1, m2, d)
    ensures SameDir(m, m2, d)
  {
    hide Lookup;
  }

  /** The mappings of other directories are the same. */
  lemma FrameSameDir(m: Mem, m': Mem, d: nat, d': nat)
    requires TablesOk(m) && TablesOk(m') && Frame(m, m', d) && d' in m.dirs && d' != d
    ensures d' in m'.dirs && SameDir(m, m', d')
  {
    forall vpn: nat | vpn < ALLPAGES
      ensures Lookup(m', d', vpn) == Lookup(m, d', vpn)
    {
      assert SlotOk(m, d', vpn / ENTRIES) && SlotOk(m', d', vpn / ENTRIES);
      assert m.dirs[d'][vpn / ENTRIES] != 0 ==> OtherTable(m, d, m.dirs[d'][vpn / ENTRIES]);
    }
  }

  lemma EntryFrame(m: Mem, t: nat, j: nat, p: Pte, d: nat)
    requires t in m.tables && j < |m.tables[t]| && t in m.towner && m.towner[t].dir == d
    ensures Frame(m, WithEntry(m, t, j, p), d)
  {
  }

  lemma TableFrame(m: Mem, d: nat, i: nat, t: nat)
    requires d in m.dirs && i < |m.dirs[d]| && t !in m.tables
    ensures Frame(m, WithTable(m, d, i, t), d)
  {
  }

  lemma PageFrame(m: Mem, d: nat, vpn: nat, f: nat, flags: nat, page: Page)
    requires TablesOk(m) && vpn < ALLPAGES && TableThere(m, d, vpn) && f !in m.pages
    ensures Frame(m, WithPage(m, d, vpn, f, flags, page), d)
  {
    SlotOfTable(m, d, vpn);
  }

  lemma DropFrame(m: Mem, d: nat, vpn: nat, f: nat)
    requires TablesOk(m) && vpn < ALLPAGES && TableThere(m, d, vpn) && f in m.powner && m.powner[f].dir == d
    ensures Frame(m, WithoutPage(m, d, vpn, f), d)
  {
    SlotOfTable(m, d, vpn);
  }

  // ---------------------------------------------------------------------------
  // Whole directories

  function NoTables(): (r: seq<nat>)
    ensures |r| == ENTRIES && forall i :: 0 <= i < ENTRIES ==> r[i] == 0
  {
    seq(ENTRIES, _ => 0)
  }

  /** A frame that was just taken becomes an empty directory. */
  lemma DirPlaced(all: set<nat>, m: Mem, loose: set<nat>, d: nat, m': Mem)
    requires Inv(all, m, loose) && d in loose && m' == m.(dirs := m.dirs[d := NoTables()])
    ensures d !in m.dirs && Inv(all, m', loose - {d}) && Frame(m, m', d)
    ensures forall vpn: nat :: vpn < ALLPAGES ==> Lookup(m', d, vpn) == Absent
  {
    hide Partition;
    MadeDir(all, m.free, m.dirs.Keys, m.tables.Keys, m.pages.Keys, loose, d);
    assert m'.dirs.Keys == m.dirs.Keys + {d};
    forall d', i | d' in m'.dirs && 0 <= i < ENTRIES
      ensures SlotOk(m', d', i)
    {
      assert d' != d ==> SlotOk(m, d', i);
    }
    forall d', vpn: nat | d' in m'.dirs && vpn < USERPAGES
      ensures MappingOk(m', d', vpn)
    {
      assert d' != d ==> MappingOk(m, d', vpn) && Lookup(m', d', vpn) == Lookup(m, d', vpn);
    }
    forall f | f in m'.pages
      ensures PageMapped(m', f)
    {
      assert PageMapped(m, f);
    }
  }

  ghost function TablesOf(m: Mem, d: nat): set<nat> {
    set t | t in m.tables && t in m.towner && m.towner[t].dir == d
  }

  /** The end of a directory without user pages: it and its tables are in nobody's hands. */
  ghost function Detached(m: Mem, d: nat): Mem {
    m.(dirs := m.dirs - {d}, tables := m.tables - TablesOf(m, d))
  }

  lemma DetachedLookup(m: Mem, d: nat, d': nat, vpn: nat)
    requires TablesOk(m) && d' in m.dirs && d' != d && vpn < ALLPAGES
    ensures Lookup(Detached(m, d), d', vpn) == Lookup(m, d', vpn)
  {
    assert SlotOk(m, d', vpn / ENTRIES);
  }

  lemma DirDetached(all: set<nat>, m: Mem, loose: set<nat>, d: nat)
    requires Inv(all, m, loose) && d in m.dirs && forall vpn: nat :: vpn < USERPAGES ==> Lookup(m, d, vpn) == Absent
    ensures Inv(all, Detached(m, d), loose + {d} + TablesOf(m, d)) && Frame(m, Detached(m, d), d)
    ensures forall i :: 0 <= i < |m.dirs[d]| && m.dirs[d][i] != 0 ==> m.dirs[d][i] in TablesOf(m, d)
    ensures forall i, j :: 0 <= i < j < |m.dirs[d]| && m.dirs[d][i] != 0 ==> m.dirs[d][i] != m.dirs[d][j]
    ensures forall t :: t in TablesOf(m, d) ==> exists i :: 0 <= i < |m.dirs[d]| && m.dirs[d][i] == t
    ensures d !in TablesOf(m, d)
  {
    hide Partition, Lookup, TablesOk, Frame;
    var m' := Detached(m, d);
    DetachedTables(m, d);
    DroppedDir(all, m.free, m.dirs.Keys, m.tables.Keys, m.pages.Keys, loose, d, TablesOf(m, d));
    assert m'.dirs.Keys == m.dirs.Keys - {d} && m'.tables.Keys == m.tables.Keys - TablesOf(m, d);
    forall d', vpn: nat | d' in m'.dirs && vpn < USERPAGES
      ensures MappingOk(m', d', vpn)
    {
      assert MappingOk(m, d', vpn);
      DetachedLookup(m, d, d', vpn);
    }
    forall f | f in m'.pages
      ensures PageMapped(m', f)
    {
      assert PageMapped(m, f);
      DetachedLookup(m, d, m.powner[f].dir, m.powner[f].vpn);
    }
    DetachedFrame(m, d);
  }

  lemma DetachedTables(m: Mem, d: nat)
    requires TablesOk(m) && d in m.dirs
    ensures TablesOk(Detached(m, d))
    ensures forall i :: 0 <= i < |m.dirs[d]| && m.dirs[d][i] != 0 ==> m.dirs[d][i] in TablesOf(m, d)
    ensures forall i, j :: 0 <= i < j < |m.dirs[d]| && m.dirs[d][i] != 0 ==> m.dirs[d][i] != m.dirs[d][j]
    ensures forall t :: t in TablesOf(m, d) ==> exists i :: 0 <= i < |m.dirs[d]| && m.dirs[d][i] == t
  {
    var m' := Detached(m, d);
    forall i | 0 <= i < |m.dirs[d]| && m.dirs[d][i] != 0
      ensures m.dirs[d][i] in TablesOf(m, d)
    {
      assert SlotOk(m, d, i);
    }
    forall i, j | 0 <= i < j < |m.dirs[d]| && m.dirs[d][i] != 0
      ensures m.dirs[d][i] != m.dirs[d][j]
    {
      assert SlotOk(m, d, i) && SlotOk(m, d, j);
    }
    forall d', i | d' in m'.dirs && 0 <= i < ENTRIES
      ensures SlotOk(m', d', i)
    {
      assert SlotOk(m, d', i);
    }
  }

  lemma DetachedFrame(m: Mem, d: nat)
    ensures Frame(m, Detached(m, d), d)
  {
  }

  /** Without directory `d`, before and after, everything is the same, and so is what is free. */
  lemma Restored(all: set<nat>, m: Mem, m': Mem, loose: set<nat>, d: nat)
    requires Inv(all, m, loose) && Inv(all, m', loose) && Frame(m, m', d) && d !in m.dirs && d !in m'.dirs
    ensures m'.dirs == m.dirs && m'.tables == m.tables && m'.pages == m.pages
    ensures forall f: nat :: f in m'.free <==> f in m.free
  {
    hide Partition, Lookup;
    forall t
      ensures t in m.tables ==> OtherTable(m, d, t)
      ensures t in m'.tables ==> OtherTable(m', d, t)
    {
    }
    forall f
      ensures f in m.pages ==> OtherPage(m, d, f)
      ensures f in m'.pages ==> OtherPage(m', d, f)
    {
      assert f in m.pages ==> PageMapped(m, f);
      assert f in m'.pages ==> PageMapped(m', f);
    }
    assert m'.dirs.Keys == m.dirs.Keys && m'.tables.Keys == m.tables.Keys && m'.pages.Keys == m.pages.Keys;
    SameFree(all, m.free, m'.free, m.dirs.Keys, m.tables.Keys, m.pages.Keys, loose);
  }

  ghost function PagesOf(m: Mem, d: nat): set<nat> {
    set f | f in m.pages && f in m.powner && m.powner[f].dir == d
  }

  /** All frames that belong to directory `d`. */
  ghost function Owned(m: Mem, d: nat): set<nat> {
    {d} + TablesOf(m, d) + PagesOf(m, d)
  }

  lemma FreedSets(all: set<nat>, free: seq<nat>, free': seq<nat>, dirs: set<nat>, tables: set<nat>, pages: set<nat>,
                  loose: set<nat>, ds: set<nat>, ts: set<nat>, ps: set<nat>)
    requires Partition(all, free, dirs, tables, pages, loose) &&
             Partition(all, free', dirs - ds, tables - ts, pages - ps, loose)
    requires ds <= dirs && ts <= tables && ps <= pages
    ensures forall f: nat :: f in free' <==> f in free || f in ds || f in ts || f in ps
  {
  }

  /** When directory `d` is gone, exactly its frames have become free. */
  lemma AllReturned(all: set<nat>, m: Mem, m': Mem, loose: set<nat>, d: nat)
    requires Inv(all, m, loose) && Inv(all, m', loose) && Frame(m, m', d) && d in m.dirs && d !in m'.dirs
    ensures forall f: nat :: f in m'.free <==> f in m.free || f in Owned(m, d)
  {
    hide Partition;
    TablesGone(m, m', d);
    PagesGone(m, m', d);
    assert m'.dirs.Keys == m.dirs.Keys - {d};
    FreedSets(all, m.free, m'.free, m.dirs.Keys, m.tables.Keys, m.pages.Keys, loose, {d}, TablesOf(m, d),
              PagesOf(m, d));
  }

  lemma TablesGone(m: Mem, m': Mem, d: nat)
    requires TablesOk(m) && TablesOk(m') && Frame(m, m', d) && d !in m'.dirs
    ensures m'.tables.Keys == m.tables.Keys - TablesOf(m, d)
  {
    forall t
      ensures t in m'.tables <==> OtherTable(m', d, t)
      ensures t in m.tables && t !in TablesOf(m, d) <==> OtherTable(m, d, t)
    {
    }
  }

  lemma PagesGone(m: Mem, m': Mem, d: nat)
    requires PagesOk(m) && PagesOk(m') && Frame(m, m', d) && d !in m'.dirs
    ensures m'.pages.Keys == m.pages.Keys - PagesOf(m, d)
  {
    hide Lookup;
    forall f
      ensures f in m'.pages <==> OtherPage(m', d, f)
      ensures f in m.pages && f !in PagesOf(m, d) <==> OtherPage(m, d, f)
    {
      assert f in m.pages ==> PageMapped(m, f);
      assert f in m'.pages ==> PageMapped(m', f);
    }
  }
}

/** The functions of vm.c on page directories, and kalloc and kfree. */
module VmCode {
  import opened Wrappers
  import opened FrameTable

  const PGSIZE: nat := 4096
  const KERNBASE: nat := 0x8000_0000

  /** Bytes that one page table maps. */
  const SPAN: nat := 0x40_0000

  const PTE_P: nat := 1
  const PTE_W: nat := 2
  const PTE_U: nat := 4

  /** A part of the kernel's address space that every directory maps, in pages. */
  datatype Range = Range(vpn: nat, n: nat, pa: nat, perm: nat)

  function RoundUp(x: nat): nat { (x + PGSIZE - 1) / PGSIZE * PGSIZE }

  /** Virtual page `v` is one that growing from `lo` to `hi` bytes adds. */
  predicate Within(v: nat, lo: nat, hi: nat) {
    RoundUp(lo) <= v * PGSIZE < hi
  }

  /** The ranges are above the user part, in order, and do not overlap. */
  ghost predicate KmapOk(kmap: seq<Range>) {
    && (forall k :: 0 <= k < |kmap| ==>
        kmap[k].n > 0 && USERPAGES <= kmap[k].vpn && kmap[k].vpn + kmap[k].n <= ALLPAGES)
    && forall k, l :: 0 <= k < l < |kmap| ==> kmap[k].vpn + kmap[k].n <= kmap[l].vpn
  }

  /** The whole pages of a range of bytes. */
  function WholePages(vstart: nat, vend: nat): nat {
    if vend < RoundUp(vstart) then 0 else (vend - RoundUp(vstart)) / PGSIZE
  }

  lemma Rounded(x: nat)
    ensures RoundUp(x) >= x && RoundUp(x) % PGSIZE == 0 && RoundUp(x) == RoundUp(x) / PGSIZE * PGSIZE
  {
  }

  /** Page `n` of a range that reaches far enough. */
  lemma PageNumber(vstart: nat, vend: nat, n: nat)
    requires RoundUp(vstart) + n * PGSIZE + PGSIZE <= vend
    ensures (RoundUp(vstart) + n * PGSIZE) / PGSIZE == RoundUp(vstart) / PGSIZE + n
    ensures (RoundUp(vstart) + n * PGSIZE) % PGSIZE == 0 && n + 1 <= WholePages(vstart, vend)
  {
  }

  lemma LastPage(vstart: nat, vend: nat, n: nat)
    requires n <= WholePages(vstart, vend) && vend < RoundUp(vstart) + n * PGSIZE + PGSIZE
    ensures n == WholePages(vstart, vend)
    ensures forall f: nat :: RoundUp(vstart) <= f * PGSIZE ==>
              (f * PGSIZE + PGSIZE <= vend <==> f * PGSIZE < RoundUp(vstart) + n * PGSIZE)
  {
    Rounded(vstart);
  }

  /** The `n` frames from `lo` on, the last one first. */
  function Downward(lo: nat, n: nat): seq<nat> {
    if n == 0 then [] else [lo + n - 1] + Downward(lo, n - 1)
  }

  // ---------------------------------------------------------------------------
  // Growing

  /** What allocuvm has done when it is at address `a`: new pages, full of zeroes. */
  ghost predicate Grown(m0: Mem, m: Mem, d: nat, lo: nat, hi: nat, a: nat, zero: Page)
    requires d in m0.dirs && d in m.dirs
  {
    && Frame(m0, m, d)
    && (forall v: nat :: v < ALLPAGES && !(Within(v, lo, hi) && v * PGSIZE < a) ==> Lookup(m, d, v) == Lookup(m0, d, v))
    && (forall v: nat :: v < ALLPAGES && Within(v, lo, hi) && v * PGSIZE < a ==>
        NewPage(m0, m, d, v, PTE_W + PTE_U + PTE_P, zero))
    && forall f :: f in m0.pages ==> f in m.pages && m.pages[f] == m0.pages[f]
  }

  /** Virtual page `v` is on a frame that was no page before, with the given flags and contents. */
  ghost predicate NewPage(m0: Mem, m: Mem, d: nat, v: nat, flags: nat, page: Page)
    requires d in m.dirs && v < ALLPAGES
  {
    var p := Lookup(m, d, v);
    p.Pte? && p.flags == flags && p.pa !in m0.pages && p.pa in m.pages && m.pages[p.pa] == page
  }

  lemma GrownSame(m0: Mem, m: Mem, m': Mem, d: nat, lo: nat, hi: nat, a: nat, zero: Page)
    requires d in m0.dirs && d in m.dirs && d in m'.dirs && Grown(m0, m, d, lo, hi, a, zero)
    requires Frame(m, m', d) && SameDir(m, m', d) && m'.pages == m.pages
    ensures Grown(m0, m', d, lo, hi, a, zero)
  {
    hide Lookup, Within;
    FrameThen(m0, m, m', d);
    hide Frame;
    forall v: nat | v < ALLPAGES && Within(v, lo, hi) && v * PGSIZE < a
      ensures NewPage(m0, m', d, v, PTE_W + PTE_U + PTE_P, zero)
    {
      assert NewPage(m0, m, d, v, PTE_W + PTE_U + PTE_P, zero);
    }
  }

  lemma GrownFree(m0: Mem, m: Mem, m': Mem, d: nat, lo: nat, hi: nat, a: nat, zero: Page)
    requires d in m0.dirs && d in m.dirs && Grown(m0, m, d, lo, hi, a, zero) && m' == m.(free := m'.free) &&
             Frame(m, m', d)
    ensures Grown(m0, m', d, lo, hi, a, zero)
  {
    SameDirFrom(m, m', d);
    GrownSame(m0, m, m', d, lo, hi, a, zero);
  }

  lemma GrownMore(m0: Mem, m: Mem, m': Mem, d: nat, lo: nat, hi: nat, a: nat, f: nat, zero: Page)
    requires d in m0.dirs && d in m.dirs && d in m'.dirs && Grown(m0, m, d, lo, hi, a, zero) && Frame(m, m', d)
    requires a % PGSIZE == 0 && RoundUp(lo) <= a < hi <= KERNBASE && f !in m.pages && m'.pages == m.pages[f := zero]
    requires forall v: nat :: v < ALLPAGES ==>
               Lookup(m', d, v) == if v == a / PGSIZE then Pte(f, PTE_W + PTE_U + PTE_P) else Lookup(m, d, v)
    ensures Grown(m0, m', d, lo, hi, a + PGSIZE, zero)
  {
    hide Lookup;
    FrameThen(m0, m, m', d);
    hide Frame;
    forall v: nat | v < ALLPAGES && Within(v, lo, hi) && v * PGSIZE < a + PGSIZE
      ensures NewPage(m0, m', d, v, PTE_W + PTE_U + PTE_P, zero)
    {
      assert v != a / PGSIZE ==> NewPage(m0, m, d, v, PTE_W + PTE_U + PTE_P, zero);
    }
  }

  /** Growing and shrinking back leaves the mappings as they were. */
  lemma BackAgain(m0: Mem, m: Mem, m': Mem, d: nat, lo: nat, hi: nat, a: nat, zero: Page)
    requires d in m0.dirs && d in m.dirs && d in m'.dirs && hi <= KERNBASE && Grown(m0, m, d, lo, hi, a, zero) &&
             Shrunk(m, m', d, lo, hi, KERNBASE)
    requires forall v: nat :: v < ALLPAGES && Within(v, lo, hi) ==> Lookup(m0, d, v) == Absent
    ensures SameDir(m0, m', d)
    ensures forall f :: f in m0.pages && f in m'.pages ==> m'.pages[f] == m0.pages[f]
  {
    hide Lookup, Frame;
  }

  /** The same mappings, the same pages. */
  lemma SamePages(m: Mem, m': Mem, d: nat)
    requires PagesOk(m) && PagesOk(m') && Frame(m, m', d) && d in m.dirs && d in m'.dirs && SameDir(m, m', d)
    ensures m'.pages.Keys == m.pages.Keys
  {
    hide Lookup;
    forall f
      ensures f in m.pages <==> f in m'.pages
    {
      if f in m.pages {
        assert PageMapped(m, f);
        assert OtherPage(m, d, f) || (m.powner[f].dir == d && MappingOk(m', d, m.powner[f].vpn));
      }
      if f in m'.pages {
        assert PageMapped(m', f);
        assert OtherPage(m', d, f) || (m'.powner[f].dir == d && MappingOk(m, d, m'.powner[f].vpn));
      }
    }
  }

  /** As many frames are page tables or free as before. */
  lemma SameFrames(all: set<nat>, m: Mem, m': Mem, loose: set<nat>, d: nat)
    requires Inv(all, m, loose) && Inv(all, m', loose) && Frame(m, m', d) && d in m.dirs && d in m'.dirs &&
             m'.pages == m.pages
    ensures forall f: nat :: f in m'.free || f in m'.tables <==> f in m.free || f in m.tables
  {
    hide Lookup;
    forall f: nat
      ensures f in m'.free || f in m'.tables <==> f in m.free || f in m.tables
    {
      assert f in all <==> f in m.free || f in m.dirs || f in m.tables || f in m.pages || f in loose;
      assert f in all <==> f in m'.free || f in m'.dirs || f in m'.tables || f in m'.pages || f in loose;
      assert f in m.dirs <==> f in m'.dirs;
    }
  }

  // ---------------------------------------------------------------------------
  // The kernel's part

  /** The entry that the first `k` ranges give a page. */
  function KernelPte(kmap: seq<Range>, k: nat, v: nat): Pte
    requires k <= |kmap|
  {
    if k == 0 then Absent
    else if kmap[k - 1].vpn <= v < kmap[k - 1].vpn + kmap[k - 1].n
            then Pte(kmap[k - 1].pa + (v - kmap[k - 1].vpn), kmap[k - 1].perm + PTE_P)
    else KernelPte(kmap, k - 1, v)
  }

  lemma {:induction false} NotYet(kmap: seq<Range>, k: nat, v: nat)
    requires KmapOk(kmap) && k <= |kmap| && (v < USERPAGES || (k < |kmap| && kmap[k].vpn <= v))
    requires k < |kmap| && kmap[k].vpn <= v ==> forall j :: 0 <= j < k ==> kmap[j].vpn + kmap[j].n <= v
    ensures KernelPte(kmap, k, v) == Absent
  {
    if k > 0 {
      NoRangeReaches(kmap, k - 1, v);
    }
  }

  lemma {:induction false} NoRangeReaches(kmap: seq<Range>, k: nat, v: nat)
    requires KmapOk(kmap) && k < |kmap| && (v < USERPAGES || forall j :: 0 <= j <= k ==> kmap[j].vpn + kmap[j].n <= v)
    ensures KernelPte(kmap, k + 1, v) == Absent
  {
    if k > 0 {
      NoRangeReaches(kmap, k - 1, v);
    }
  }

  ghost predicate KMapped(m0: Mem, m: Mem, d: nat, r: Range, i: nat)
    requires d in m0.dirs && d in m.dirs
  {
    forall v: nat :: v < ALLPAGES ==>
      Lookup(m, d, v) == if r.vpn <= v < r.vpn + i then Pte(r.pa + (v - r.vpn), r.perm + PTE_P) else Lookup(m0, d, v)
  }

  lemma KMore(m0: Mem, m: Mem, m1: Mem, d: nat, r: Range, i: nat, t: nat, j: nat, p: Pte)
    requires d in m0.dirs && d in m.dirs && d in m1.dirs && KMapped(m0, m, d, r, i) && SameDir(m, m1, d)
    requires TablesOk(m1) && t in m1.tables && |m1.tables[t]| == ENTRIES && r.vpn + i < ALLPAGES
    requires m1.towner[t] == Slot(d, (r.vpn + i) / ENTRIES) && j == (r.vpn + i) % ENTRIES &&
             p == Pte(r.pa + i, r.perm + PTE_P)
    ensures KMapped(m0, WithEntry(m1, t, j, p), d, r, i + 1)
  {
    hide Lookup, TablesOk;
    forall v: nat | v < ALLPAGES
      ensures Lookup(WithEntry(m1, t, j, p), d, v) == if v == r.vpn + i then p else Lookup(m1, d, v)
    {
      EntryLookup(m1, t, j, p, d, (r.vpn + i) / ENTRIES, d, v);
    }
  }

  // ---------------------------------------------------------------------------
  // Taking a directory apart

  /** Nothing is different, but perhaps the order of the free list. */
  ghost predicate Same(m: Mem, m': Mem) {
    m'.dirs == m.dirs && m'.tables == m.tables && m'.pages == m.pages && forall f: nat :: f in m'.free <==> f in m.free
  }

  lemma NoUserPages(m0: Mem, m: Mem, d: nat)
    requires d in m0.dirs && d in m.dirs && Shrunk(m0, m, d, 0, KERNBASE, KERNBASE)
    ensures Frame(m0, m, d) && forall v: nat :: v < USERPAGES ==> Lookup(m, d, v) == Absent
  {
    hide Lookup;
    assert forall v: nat :: v < USERPAGES ==> Within(v, 0, KERNBASE);
  }

  /** The page tables that are still to be freed. */
  function Rest(pgdir: seq<nat>, i: nat): set<nat>
    requires i <= |pgdir|
  {
    set k | i <= k < |pgdir| && pgdir[k] != 0 :: pgdir[k]
  }

  ghost predicate DistinctEntries(pgdir: seq<nat>) {
    forall i, j :: 0 <= i < j < |pgdir| && pgdir[i] != 0 ==> pgdir[i] != pgdir[j]
  }

  lemma RestStep(pgdir: seq<nat>, i: nat)
    requires i < |pgdir| && DistinctEntries(pgdir)
    ensures Rest(pgdir, i) == Rest(pgdir, i + 1) + (if pgdir[i] != 0 then {pgdir[i]} else {})
    ensures pgdir[i] !in Rest(pgdir, i + 1)
  {
  }

  lemma EntriesAre(pgdir: seq<nat>, ts: set<nat>)
    requires forall i :: 0 <= i < |pgdir| && pgdir[i] != 0 ==> pgdir[i] in ts
    requires forall t :: t in ts ==> exists i :: 0 <= i < |pgdir| && pgdir[i] == t
    requires 0 !in ts
    ensures (set t | t in pgdir && t != 0) == ts == Rest(pgdir, 0)
  {
    forall t
      ensures t in ts ==> t in Rest(pgdir, 0)
    {
      if t in ts {
        var i :| 0 <= i < |pgdir| && pgdir[i] == t;
      }
    }
  }

  // ---------------------------------------------------------------------------
  // Copying

  /**
   Virtual page `v` of the copy `d2`: the same contents and flags on a frame of its own, or nothing
   but the kernel.
   */
  ghost predicate Copied(m0: Mem, m: Mem, d: nat, d2: nat, kmap: seq<Range>, sz: nat, v: nat)
    requires d in m0.dirs && d2 in m.dirs && v < ALLPAGES
  {
    if v * PGSIZE < sz then
      && Lookup(m0, d, v).Pte? && Lookup(m0, d, v).pa in m0.pages
      && NewPage(m0, m, d2, v, Lookup(m0, d, v).flags, m0.pages[Lookup(m0, d, v).pa])
    else Lookup(m, d2, v) == KernelPte(kmap, |kmap|, v)
  }

  ghost predicate AllCopied(m0: Mem, m: Mem, d: nat, d2: nat, kmap: seq<Range>, sz: nat) {
    && d in m0.dirs && d2 in m.dirs
    && forall v: nat :: v < ALLPAGES ==> Copied(m0, m, d, d2, kmap, sz, v)
  }

  lemma OtherDirStays(m: Mem, m': Mem, d2: nat, d: nat)
    requires Frame(m, m', d2) && d in m.dirs && d != d2
    ensures d in m'.dirs
  {
  }

  lemma NotCopied(m0: Mem, m: Mem, d: nat, d2: nat, kmap: seq<Range>, i: nat)
    requires AllCopied(m0, m, d, d2, kmap, i) && i % PGSIZE == 0 && i < KERNBASE && KmapOk(kmap)
    ensures Lookup(m, d2, i / PGSIZE) == Absent
  {
    assert Copied(m0, m, d, d2, kmap, i, i / PGSIZE);
    NotYet(kmap, |kmap|, i / PGSIZE);
  }

  lemma AllOther(m0: Mem, m: Mem, d2: nat)
    requires PagesOk(m0) && Frame(m0, m, d2) && d2 !in m0.dirs
    ensures forall g :: g in m0.pages ==> g in m.pages && m.pages[g] == m0.pages[g]
  {
    forall g | g in m0.pages
      ensures g in m.pages && m.pages[g] == m0.pages[g]
    {
      assert PageMapped(m0, g) && OtherPage(m0, d2, g);
    }
  }

  lemma NothingCopied(m0: Mem, m: Mem, d: nat, d2: nat, kmap: seq<Range>)
    requires d in m0.dirs && d2 in m.dirs && forall v: nat :: v < ALLPAGES ==>
               Lookup(m, d2, v) == KernelPte(kmap, |kmap|, v)
    ensures AllCopied(m0, m, d, d2, kmap, 0)
  {
  }

  lemma NoTable(m: Mem, d: nat, vpn: nat)
    requires TablesOk(m) && d in m.dirs && vpn < ALLPAGES && Lookup(m, d, vpn).Pte?
    ensures |m.dirs[d]| == ENTRIES && m.dirs[d][vpn / ENTRIES] != 0
  {
  }

  lemma ParentPage(m0: Mem, m: Mem, d: nat, d2: nat, v: nat)
    requires PagesOk(m0) && Frame(m0, m, d2) && d in m0.dirs && d != d2 && v < USERPAGES && Lookup(m0, d, v).Pte?
    ensures var f := Lookup(m0, d, v).pa; f in m0.pages && f in m.pages && m.pages[f] == m0.pages[f]
  {
    assert MappingOk(m0, d, v);
    assert OtherPage(m0, d2, Lookup(m0, d, v).pa);
  }

  lemma OneCopied(m0: Mem, m: Mem, m1: Mem, m': Mem, d: nat, d2: nat, kmap: seq<Range>, sz: nat, i: nat, f: nat)
    requires d2 in m1.dirs && d2 in m'.dirs && i % PGSIZE == 0 && i < sz <= KERNBASE && AllCopied(m0, m, d, d2, kmap, i)
    requires m1.dirs == m.dirs && m1.tables == m.tables && m1.pages == m.pages && f !in m.pages
    requires forall g :: g in m0.pages ==> g in m.pages && m.pages[g] == m0.pages[g]
    requires Lookup(m0, d, i / PGSIZE).Pte? && Lookup(m0, d, i / PGSIZE).pa in m0.pages
    requires m'.pages == m.pages[f := m0.pages[Lookup(m0, d, i / PGSIZE).pa]]
    requires forall v: nat :: v < ALLPAGES ==>
               Lookup(m', d2, v) == if v == i / PGSIZE then Pte(f, Lookup(m0, d, i / PGSIZE).flags)
                 else Lookup(m1, d2, v)
    ensures AllCopied(m0, m', d, d2, kmap, Min(i + PGSIZE, sz))
  {
    hide Lookup;
    var done := Min(i + PGSIZE, sz);
    forall v: nat | v < ALLPAGES
      ensures Copied(m0, m', d, d2, kmap, done, v)
    {
      assert Copied(m0, m, d, d2, kmap, i, v);
      LookupFrom(m, m1, d2, v);
    }
  }

  lemma LookupIn(m: Mem, d: nat, vpn: nat)
    requires vpn < ALLPAGES && d in m.dirs
    ensures TableThere(m, d, vpn) ==>
              && vpn / ENTRIES < |m.dirs[d]| && m.dirs[d][vpn / ENTRIES] in m.tables &&
                 vpn % ENTRIES < |m.tables[m.dirs[d][vpn / ENTRIES]]|
              && Lookup(m, d, vpn) == m.tables[m.dirs[d][vpn / ENTRIES]][vpn % ENTRIES]
  {
  }

  /** What deallocuvm has done when it is at address `a`. */
  ghost predicate Shrunk(m0: Mem, m: Mem, d: nat, lo: nat, hi: nat, a: nat)
    requires d in m0.dirs && d in m.dirs
  {
    && Frame(m0, m, d)
    && (forall v: nat :: v < ALLPAGES ==>
        Lookup(m, d, v) == if Within(v, lo, hi) && v * PGSIZE < a then Absent else Lookup(m0, d, v))
    && forall f :: f in m.pages ==> f in m0.pages && m.pages[f] == m0.pages[f]
  }

  lemma SpanEnd(a: nat)
    requires a % PGSIZE == 0
    ensures var b := (a / SPAN + 1) * SPAN; b - PGSIZE >= a && (b - PGSIZE) % PGSIZE == 0
  {
    var q, r := a / SPAN, a % SPAN;
    assert a == q * SPAN + r && r % PGSIZE == 0;
    assert (q + 1) * SPAN - PGSIZE == (q * 1024 + 1023) * PGSIZE;
  }

  lemma NothingShrunk(m: Mem, d: nat, lo: nat, hi: nat)
    requires d in m.dirs
    ensures Shrunk(m, m, d, lo, hi, RoundUp(lo))
    ensures lo >= hi ==> Shrunk(m, m, d, lo, hi, KERNBASE)
  {
  }

  lemma ShrunkAll(m0: Mem, m: Mem, d: nat, lo: nat, hi: nat, a: nat)
    requires d in m0.dirs && d in m.dirs && Shrunk(m0, m, d, lo, hi, a) && hi <= a && hi <= KERNBASE
    ensures Shrunk(m0, m, d, lo, hi, KERNBASE)
  {
    hide Frame, Lookup;
  }

  lemma ShrunkMore(m0: Mem, m: Mem, m': Mem, d: nat, lo: nat, hi: nat, a: nat)
    requires d in m0.dirs && d in m.dirs && d in m'.dirs && Shrunk(m0, m, d, lo, hi, a) && Frame(m, m', d)
    requires a % PGSIZE == 0 && RoundUp(lo) <= a < hi <= KERNBASE
    requires forall v: nat :: v < ALLPAGES ==> Lookup(m', d, v) == if v == a / PGSIZE then Absent else Lookup(m, d, v)
    requires forall f :: f in m'.pages ==> f in m.pages && m'.pages[f] == m.pages[f]
    ensures Shrunk(m0, m', d, lo, hi, a + PGSIZE)
  {
    hide Lookup;
    FrameThen(m0, m, m', d);
    hide Frame;
    forall v: nat | v < ALLPAGES
      ensures Lookup(m', d, v) == if Within(v, lo, hi) && v * PGSIZE < a + PGSIZE then Absent else Lookup(m0, d, v)
    {
      assert v * PGSIZE < a + PGSIZE <==> v * PGSIZE < a || v == a / PGSIZE;
    }
  }

  /** Where there is no page table there are no pages, as far as the next directory entry. */
  lemma Skipped(m0: Mem, m: Mem, d: nat, lo: nat, hi: nat, a: nat)
    requires d in m0.dirs && d in m.dirs && Shrunk(m0, m, d, lo, hi, a) && TablesOk(m)
    requires a % PGSIZE == 0 && a < hi <= KERNBASE && |m.dirs[d]| == ENTRIES && m.dirs[d][a / PGSIZE / ENTRIES] == 0
    ensures Shrunk(m0, m, d, lo, hi, (a / SPAN + 1) * SPAN)
  {
    hide Frame;
    forall v: nat | v < ALLPAGES && a <= v * PGSIZE < (a / SPAN + 1) * SPAN
      ensures Lookup(m, d, v) == Absent
    {
      assert v / ENTRIES == a / PGSIZE / ENTRIES;
    }
  }

  class Kernel {
    ghost const all: set<nat>
    const zero: Page
    const kmap: seq<Range>
    var free: seq<nat>
    var dirs: map<nat, seq<nat>>
    var tables: map<nat, seq<Pte>>
    var pages: map<nat, Page>
    ghost var towner: map<nat, Slot>
    ghost var powner: map<nat, Home>
    /** Frames that kalloc has given out and that have no use yet. */
    ghost var loose: set<nat>
    /** How often kalloc has found the free list empty. */
    ghost var denied: nat

    ghost function Now(): Mem
      reads this
    {
      Mem(free, dirs, tables, pages, towner, powner)
    }

    ghost predicate Valid()
      reads this
    {
      Inv(all, Now(), loose) && KmapOk(kmap)
    }

    /** Before kinit: nothing is mapped, and all frames are still to be freed. */
    constructor (frames: set<nat>, kmap: seq<Range>)
      requires 0 !in frames && KmapOk(kmap)
      ensures Valid() && this.kmap == kmap && all == loose == frames && free == [] && dirs == map[] && denied == 0
      ensures zero == seq(PGSIZE, _ => 0)
    {
      all, zero, this.kmap := frames, seq(PGSIZE, _ => 0), kmap;
      free, dirs, tables, pages := [], map[], map[], map[];
      towner, powner, loose, denied := map[], map[], frames, 0;
    }

    /** freerange: the whole pages of the range go to the free list, the last one first. */
    method FreeRange(vstart: nat, vend: nat)
      requires Valid() && forall f: nat :: RoundUp(vstart) <= f * PGSIZE && f * PGSIZE + PGSIZE <= vend ==> f in loose
      modifies this`free, this`loose
      ensures Valid()
      ensures free == Downward(RoundUp(vstart) / PGSIZE, WholePages(vstart, vend)) + old(free)
      ensures forall f: nat :: f in loose <==>
                f in old(loose) && !(RoundUp(vstart) <= f * PGSIZE && f * PGSIZE + PGSIZE <= vend)
    {
      hide Inv, RoundUp, WholePages;
      var p := RoundUp(vstart);
      ghost var n := 0;
      Rounded(vstart);
      while p + PGSIZE <= vend
        invariant p == RoundUp(vstart) + n * PGSIZE && n <= WholePages(vstart, vend) && Valid()
        invariant free == Downward(RoundUp(vstart) / PGSIZE, n) + old(free)
        invariant forall f: nat :: f in loose <==> f in old(loose) && !(RoundUp(vstart) <= f * PGSIZE < p)
      {
        PageNumber(vstart, vend, n);
        Kfree(p / PGSIZE);
        p := p + PGSIZE;
        n := n + 1;
      }
      LastPage(vstart, vend, n);
    }

    /** kalloc: the first free frame; 0 is none. */
    method Kalloc() returns (f: nat)
      requires Valid()
      modifies this`free, this`loose, this`denied
      ensures Valid() && denied == old(denied) + if f == 0 then 1 else 0
      ensures f == 0 <==> old(free) == []
      ensures f == 0 ==> free == old(free) && loose == old(loose)
      ensures f != 0 ==> free == old(free)[1..] && f == old(free)[0] && f !in old(loose) && loose == old(loose) + {f}
      ensures forall d :: Frame(old(Now()), Now(), d)
    {
      hide Inv;
      if free == [] {
        denied := denied + 1;
        return 0;
      }
      TakeFrame(all, Now(), loose);
      f := free[0];
      free := free[1..];
      loose := loose + {f};
    }

    /** kfree. */
    method Kfree(f: nat)
      requires Valid() && f in loose
      modifies this`free, this`loose
      ensures Valid() && free == [f] + old(free) && loose == old(loose) - {f}
      ensures forall d :: Frame(old(Now()), Now(), d)
    {
      hide Inv;
      GiveFrame(all, Now(), loose, f);
      free := [f] + free;
      loose := loose - {f};
    }

    lemma Facts(d: nat)
      requires Valid() && d in dirs
      ensures TablesOk(Now()) && |dirs[d]| == ENTRIES
    {
    }

    /** walkpgdir: the page table for a virtual page; 0 is none. */
    method Walk(d: nat, vpn: nat, alloc: bool) returns (t: nat)
      requires Valid() && d in dirs && vpn < ALLPAGES
      modifies this`free, this`loose, this`dirs, this`tables, this`towner, this`denied
      ensures denied == old(denied) + if t == 0 && alloc then 1 else 0
      ensures Valid() && Frame(old(Now()), Now(), d) && loose == old(loose) && d in dirs &&
              SameDir(old(Now()), Now(), d)
      ensures |dirs[d]| == ENTRIES && t == dirs[d][vpn / ENTRIES]
      ensures t != 0 ==> TableThere(Now(), d, vpn)
      ensures t == 0 || !alloc ==> Now() == old(Now())
      ensures t == 0 && alloc ==> free == []
    {
      hide Inv, TablesOk, Frame, Lookup, SameDir;
      Facts(d);
      FrameSelf(Now(), d);
      SameDirFrom(Now(), Now(), d);
      var i := vpn / ENTRIES;
      t := dirs[d][i];
      if t == 0 {
        if !alloc {
          return;
        }
        t := Kalloc();
        if t == 0 {
          return;
        }
        ghost var m := Now();
        SameDirFrom(old(Now()), m, d);
        TablePlaced(all, m, loose, d, i, t);
        NotTable(m, loose, t);
        TableFrame(m, d, i, t);
        FrameThen(old(Now()), m, WithTable(m, d, i, t), d);
        SameDirThen(old(Now()), m, WithTable(m, d, i, t), d);
        var entries: seq<nat> := dirs[d][i := t];
        tables := tables[t := NoEntries()];
        dirs := dirs[d := entries];
        towner := towner[t := Slot(d, i)];
        loose := loose - {t};
      }
      Facts(d);
      ItsTable(Now(), d, vpn);
    }

    lemma NotTable(m: Mem, loose: set<nat>, t: nat)
      requires Inv(all, m, loose) && t in loose
      ensures t !in m.tables && t !in m.pages && t !in m.dirs
    {
    }

    /** mappages of one user page: frame `f` with contents `page`. False: no frame for the page table. */
    method MapUser(d: nat, vpn: nat, f: nat, flags: nat, page: Page) returns (ok: bool)
      requires Valid() && d in dirs && vpn < USERPAGES && f in loose && Lookup(Now(), d, vpn) == Absent
      modifies this
      ensures Valid() && Frame(old(Now()), Now(), d) && d in dirs && f !in old(pages) &&
              denied == old(denied) + if ok then 0 else 1
      ensures ok ==>
                && loose == old(loose) - {f} && pages == old(pages)[f := page]
                && forall v: nat :: v < ALLPAGES ==>
                     Lookup(Now(), d, v) == if v == vpn then Pte(f, flags) else Lookup(old(Now()), d, v)
      ensures !ok ==> loose == old(loose) && pages == old(pages) && SameDir(old(Now()), Now(), d)
    {
      hide Inv, TablesOk, Lookup, Frame;
      NotTable(Now(), loose, f);
      var t := Walk(d, vpn, true);
      if t == 0 {
        return false;
      }
      ghost var m := Now();
      assert Lookup(m, d, vpn) == Absent;
      PagePlaced(all, m, loose, d, vpn, f, flags, page);
      Facts(d);
      PageFrame(m, d, vpn, f, flags, page);
      FrameThen(old(Now()), m, WithPage(m, d, vpn, f, flags, page), d);
      tables := tables[t := tables[t][vpn % ENTRIES := Pte(f, flags)]];
      pages := pages[f := page];
      powner := powner[f := Home(d, vpn)];
      loose := loose - {f};
      return true;
    }

    // -------------------------------------------------------------------------
    // deallocuvm

    /** The present entry for user page `vpn` is cleared, and its frame goes to the free list. */
    method Unmap(d: nat, vpn: nat, t: nat)
      requires Valid() && d in dirs && vpn < USERPAGES && TableThere(Now(), d, vpn) && t == dirs[d][vpn / ENTRIES]
      requires tables[t][vpn % ENTRIES].Pte?
      modifies this`free, this`tables, this`pages, this`powner
      ensures Valid() && Frame(old(Now()), Now(), d)
      ensures old(tables)[t][vpn % ENTRIES].pa in old(pages) && pages == old(pages) - {old(tables)[t][vpn % ENTRIES].pa}
      ensures forall v: nat :: v < ALLPAGES ==>
                Lookup(Now(), d, v) == if v == vpn then Absent else Lookup(old(Now()), d, v)
    {
      hide Inv, TablesOk, Frame;
      var f := tables[t][vpn % ENTRIES].pa;
      ghost var m := Now();
      PageRemoved(all, m, loose, d, vpn, f, WithoutPage(m, d, vpn, f));
      Facts(d);
      DropFrame(m, d, vpn, f);
      assert f != 0;
      free := [f] + free;
      tables := tables[t := tables[t][vpn % ENTRIES := Absent]];
      pages := pages - {f};
      powner := powner - {f};
    }

    /**
     deallocuvm: every page between the two sizes is unmapped, also where the search skips to the next
     directory entry.
     */
    method DeallocUvm(d: nat, oldsz: nat, newsz: nat) returns (sz: nat)
      requires Valid() && d in dirs && oldsz <= KERNBASE
      modifies this
      ensures Valid() && loose == old(loose) && d in dirs && Shrunk(old(Now()), Now(), d, newsz, oldsz, KERNBASE)
      ensures sz == (if newsz >= oldsz then oldsz else newsz) && denied == old(denied)
    {
      hide Inv, TablesOk, Frame, Lookup, TableThere, Shrunk, RoundUp;
      ghost var m0 := Now();
      Rounded(newsz);
      NothingShrunk(m0, d, newsz, oldsz);
      if newsz >= oldsz {
        return oldsz;
      }
      var a := RoundUp(newsz);
      while a < oldsz
        invariant RoundUp(newsz) <= a && a % PGSIZE == 0 && Valid() && loose == old(loose) && d in dirs &&
                  denied == old(denied)
        invariant Shrunk(m0, Now(), d, newsz, oldsz, a)
        decreases oldsz - a
      {
        a := DeallocAt(d, a, oldsz, newsz, m0);
        a := a + PGSIZE;
      }
      ShrunkAll(m0, Now(), d, newsz, oldsz, a);
      return newsz;
    }

    /** The body of the loop of deallocuvm. */
    method DeallocAt(d: nat, a0: nat, oldsz: nat, newsz: nat, ghost m0: Mem) returns (a: nat)
      requires Valid() && d in dirs && d in m0.dirs && RoundUp(newsz) <= a0 < oldsz <= KERNBASE && a0 % PGSIZE == 0
      requires Shrunk(m0, Now(), d, newsz, oldsz, a0)
      modifies this
      ensures Valid() && loose == old(loose) && d in dirs && a >= a0 && a % PGSIZE == 0 && denied == old(denied)
      ensures Shrunk(m0, Now(), d, newsz, oldsz, a + PGSIZE)
    {
      hide Inv, TablesOk, Frame, Lookup, TableThere, Shrunk;
      a := a0;
      ghost var m := Now();
      Facts(d);
      var t := Walk(d, a / PGSIZE, false);
      LookupIn(m, d, a / PGSIZE);
      SpanEnd(a);
      if t == 0 {
        Skipped(m0, m, d, newsz, oldsz, a);
        a := (a / SPAN + 1) * SPAN - PGSIZE;
      } else if tables[t][a / PGSIZE % ENTRIES].Pte? {
        Unmap(d, a / PGSIZE, t);
        ShrunkMore(m0, m, Now(), d, newsz, oldsz, a);
      } else {
        FrameSelf(m, d);
        ShrunkMore(m0, m, m, d, newsz, oldsz, a);
      }
    }

    // -------------------------------------------------------------------------
    // freevm

    /** freevm, when nobody else uses the directory: its pages, its page tables, and the directory itself. */
    method FreeVm(d: nat)
      requires Valid() && d in dirs
      modifies this
      ensures Valid() && loose == old(loose) && d !in dirs && Frame(old(Now()), Now(), d) && denied == old(denied)
      ensures forall f: nat :: f in free <==> f in old(free) || f in Owned(old(Now()), d)
    {
      hide Inv, TablesOk, Frame, Lookup, Owned, Shrunk, TablesOf, Rest;
      ghost var m0 := Now();
      var sz := DeallocUvm(d, KERNBASE, 0);
      var pgdir := dirs[d];
      ghost var m1 := Now();
      NoUserPages(m0, m1, d);
      DirDetached(all, m1, loose, d);
      FrameThen(m0, m1, Detached(m1, d), d);
      Entries(m1, d);
      // The frames of the directory and its tables stay as they are until kfree; they only stop being a directory.
      EntriesAre(pgdir, TablesOf(m1, d));
      dirs := dirs - {d};
      tables := tables - (set t | t in pgdir && t != 0);
      loose := loose + {d} + Rest(pgdir, 0);
      assert Now() == Detached(m1, d);
      ghost var m2 := Now();
      FreeFrames(d, pgdir, old(loose));
      FrameThen(m0, m2, Now(), d);
      AllReturned(all, m0, Now(), loose, d);
    }

    /** The last lines of freevm: the page tables, and the directory. */
    method FreeFrames(d: nat, pgdir: seq<nat>, ghost l0: set<nat>)
      requires Valid() && DistinctEntries(pgdir) && loose == l0 + {d} + Rest(pgdir, 0)
      requires d !in l0 && d !in Rest(pgdir, 0) && Rest(pgdir, 0) !! l0 && d !in dirs
      modifies this`free, this`loose
      ensures Valid() && loose == l0 && Frame(old(Now()), Now(), d)
    {
      hide Inv, Frame;
      ghost var m0 := Now();
      FrameSelf(m0, d);
      var i := 0;
      while i < |pgdir|
        invariant 0 <= i <= |pgdir| && Valid() && Frame(m0, Now(), d)
        invariant loose == l0 + {d} + Rest(pgdir, i) && Rest(pgdir, i) <= Rest(pgdir, 0)
      {
        ghost var m := Now();
        RestStep(pgdir, i);
        if pgdir[i] != 0 {
          Kfree(pgdir[i]);
          FrameThen(m0, m, Now(), d);
        }
        i := i + 1;
      }
      ghost var m := Now();
      Kfree(d);
      FrameThen(m0, m, Now(), d);
    }

    // -------------------------------------------------------------------------
    // setupkvm

    /** mappages of `n` pages of the kernel. False: no frame for a page table. */
    method MapKernel(d: nat, vpn: nat, n: nat, pa: nat, perm: nat) returns (ok: bool)
      requires Valid() && d in dirs && n > 0 && USERPAGES <= vpn && vpn + n <= ALLPAGES
      requires forall v: nat :: vpn <= v < vpn + n ==> Lookup(Now(), d, v) == Absent
      modifies this
      ensures Valid() && loose == old(loose) && d in dirs && Frame(old(Now()), Now(), d) && pages == old(pages)
      ensures denied == old(denied) + if ok then 0 else 1
      ensures ok ==> KMapped(old(Now()), Now(), d, Range(vpn, n, pa, perm), n)
    {
      hide Inv, TablesOk, Frame, Lookup, TableThere;
      ghost var m0 := Now();
      FrameSelf(m0, d);
      var i := 0;
      while i < n
        invariant 0 <= i <= n && Valid() && loose == old(loose) && d in dirs && Frame(m0, Now(), d) &&
                  pages == old(pages)
        invariant denied == old(denied)
        invariant KMapped(m0, Now(), d, Range(vpn, n, pa, perm), i)
      {
        ghost var m := Now();
        var t := Walk(d, vpn + i, true);
        FrameThen(m0, m, Now(), d);
        if t == 0 {
          return false;
        }
        ghost var m1 := Now();
        Facts(d);
        LookupIn(m1, d, vpn + i);
        SlotOfTable(m1, d, vpn + i);
        var j := (vpn + i) % ENTRIES;
        assert tables[t][j] == Absent;
        ghost var p := Pte(pa + i, perm + PTE_P);
        TableSize(m1, t);
        KernelMapped(all, m1, loose, t, j, p);
        EntryFrame(m1, t, j, p, d);
        FrameThen(m0, m1, WithEntry(m1, t, j, p), d);
        KMore(m0, m, m1, d, Range(vpn, n, pa, perm), i, t, j, p);
        tables := tables[t := tables[t][j := Pte(pa + i, perm + PTE_P)]];
        i := i + 1;
      }
      return true;
    }

    lemma Entries(m: Mem, d: nat)
      requires Inv(all, m, loose) && d in m.dirs
      ensures 0 !in TablesOf(m, d) && d !in loose && TablesOf(m, d) !! loose && d != 0
    {
    }

    lemma TableSize(m: Mem, t: nat)
      requires TablesOk(m) && t in m.tables
      ensures |m.tables[t]| == ENTRIES
    {
    }

    /** setupkvm: a new directory with the kernel's mappings and no user pages. 0: no memory, and nothing is lost. */
    method Setupkvm() returns (d: nat)
      requires Valid()
      modifies this
      ensures Valid() && loose == old(loose) && denied == old(denied) + if d == 0 then 1 else 0
      ensures d != 0 ==> d !in old(dirs) && d in dirs && Frame(old(Now()), Now(), d) && pages == old(pages)
      ensures d != 0 ==> forall v: nat :: v < ALLPAGES ==> Lookup(Now(), d, v) == KernelPte(kmap, |kmap|, v)
      ensures d == 0 ==> Same(old(Now()), Now())
    {
      hide Inv, TablesOk, Frame, Lookup, Owned;
      ghost var m0 := Now();
      d := Kalloc();
      if d == 0 {
        return;
      }
      ghost var m := Now();
      DirPlaced(all, m, loose, d, m.(dirs := m.dirs[d := NoTables()]));
      FrameThen(m0, m, m.(dirs := m.dirs[d := NoTables()]), d);
      dirs := dirs[d := NoTables()];
      loose := loose - {d};
      var k := 0;
      while k < |kmap|
        invariant 0 <= k <= |kmap| && Valid() && loose == old(loose) && d in dirs && Frame(m0, Now(), d) &&
                  pages == old(pages)
        invariant denied == old(denied)
        invariant forall v: nat :: v < ALLPAGES ==> Lookup(Now(), d, v) == KernelPte(kmap, k, v)
      {
        ghost var m1 := Now();
        forall v: nat | kmap[k].vpn <= v < kmap[k].vpn + kmap[k].n
          ensures Lookup(m1, d, v) == Absent
        {
          NotYet(kmap, k, v);
        }
        var ok := MapKernel(d, kmap[k].vpn, kmap[k].n, kmap[k].pa, kmap[k].perm);
        FrameThen(m0, m1, Now(), d);
        if !ok {
          GiveUp(d, m0);
          return 0;
        }
        k := k + 1;
      }
    }

    /** A directory that was not there before is thrown away: all is as it was. */
    method GiveUp(d: nat, ghost m0: Mem)
      requires Valid() && d in dirs && Frame(m0, Now(), d) && d !in m0.dirs && Inv(all, m0, loose)
      modifies this
      ensures Valid() && loose == old(loose) && Same(m0, Now()) && denied == old(denied)
    {
      hide Inv, Frame, Owned;
      ghost var m := Now();
      FreeVm(d);
      FrameThen(m0, m, Now(), d);
      Restored(all, m0, Now(), loose, d);
    }

    // -------------------------------------------------------------------------
    // allocuvm

    /**
     allocuvm: zeroed pages for the addresses between the two sizes. 0: the new size is too big, or
     kalloc found no frame; then every frame that was taken for a page is free again.
     */
    method AllocUvm(d: nat, oldsz: nat, newsz: nat) returns (sz: nat)
      requires Valid() && d in dirs && forall v: nat :: v < ALLPAGES && Within(v, oldsz, newsz) ==>
                 Lookup(Now(), d, v) == Absent
      modifies this
      ensures Valid() && loose == old(loose) && d in dirs
      ensures sz == 0 || sz == if newsz < oldsz then oldsz else newsz
      ensures newsz >= KERNBASE ==> sz == 0 && Now() == old(Now())
      ensures newsz == 0 || newsz >= KERNBASE || denied == old(denied) + if sz == 0 then 1 else 0
      ensures sz != 0 ==> Grown(old(Now()), Now(), d, oldsz, newsz, newsz, zero)
      ensures sz == 0 && newsz > 0 ==>
                && Frame(old(Now()), Now(), d) && SameDir(old(Now()), Now(), d) && pages == old(pages)
                && forall f: nat :: f in free || f in tables <==> f in old(free) || f in old(tables)
    {
      hide Inv, TablesOk, PagesOk, Frame, Lookup, SameDir;
      ghost var m0 := Now();
      Sound();
      FrameSelf(m0, d);
      SameDirFrom(m0, m0, d);
      if newsz >= KERNBASE {
        return 0;
      }
      if newsz < oldsz {
        return oldsz;
      }
      var a := RoundUp(oldsz);
      while a < newsz
        invariant RoundUp(oldsz) <= a && a % PGSIZE == 0 && Valid() && loose == old(loose) && d in dirs
        invariant denied == old(denied)
        invariant Grown(m0, Now(), d, oldsz, newsz, a, zero)
      {
        ghost var m := Now();
        var mem := Kalloc();
        if mem == 0 {
          Retreat(d, newsz, oldsz, a, m0);
          SameFrames(all, m0, Now(), loose, d);
          return 0;
        }
        ghost var m1 := Now();
        GrownFree(m0, m, m1, d, oldsz, newsz, a, zero);
        LookupFrom(m, m1, d, a / PGSIZE);
        var ok := MapUser(d, a / PGSIZE, mem, PTE_W + PTE_U + PTE_P, zero);
        if !ok {
          GrownSame(m0, m1, Now(), d, oldsz, newsz, a, zero);
          Retreat(d, newsz, oldsz, a, m0);
          ghost var m2 := Now();
          Kfree(mem);
          SameDirFrom(m2, Now(), d);
          SameDirThen(m0, m2, Now(), d);
          FrameThen(m0, m2, Now(), d);
          SameFrames(all, m0, Now(), loose, d);
          return 0;
        }
        GrownMore(m0, m1, Now(), d, oldsz, newsz, a, mem, zero);
        a := a + PGSIZE;
      }
      return newsz;
    }

    /** allocuvm fails: what it has mapped is unmapped. */
    method Retreat(d: nat, newsz: nat, oldsz: nat, ghost a: nat, ghost m0: Mem)
      requires Valid() && d in dirs && newsz <= KERNBASE && d in m0.dirs && Grown(m0, Now(), d, oldsz, newsz, a, zero)
      requires PagesOk(m0) && forall v: nat :: v < ALLPAGES && Within(v, oldsz, newsz) ==> Lookup(m0, d, v) == Absent
      modifies this
      ensures Valid() && loose == old(loose) && d in dirs && denied == old(denied)
      ensures Frame(m0, Now(), d) && SameDir(m0, Now(), d) && pages == m0.pages
    {
      hide Inv, PagesOk, Lookup, Frame;
      ghost var m := Now();
      var sz := DeallocUvm(d, newsz, oldsz);
      FrameThen(m0, m, Now(), d);
      BackAgain(m0, m, Now(), d, oldsz, newsz, a, zero);
      Sound();
      SamePages(m0, Now(), d);
      assert pages == m0.pages;
    }

    lemma Sound()
      requires Valid()
      ensures PagesOk(Now()) && TablesOk(Now())
    {
    }

    // -------------------------------------------------------------------------
    // copyuvm

    /**
     copyuvm: a new directory whose pages below `sz` have the same contents and flags, on frames of
     their own. 0: no memory, and nothing is lost.
     */
    method CopyUvm(d: nat, sz: nat) returns (d2: nat)
      requires Valid() && d in dirs && sz <= KERNBASE
      requires forall v: nat :: v < ALLPAGES && v * PGSIZE < sz ==> Lookup(Now(), d, v).Pte?
      modifies this
      ensures Valid() && loose == old(loose) && denied == old(denied) + if d2 == 0 then 1 else 0
      ensures d2 == 0 ==> Same(old(Now()), Now())
      ensures d2 != 0 ==>
                && d2 !in old(dirs) && d2 in dirs && Frame(old(Now()), Now(), d2)
                && AllCopied(old(Now()), Now(), d, d2, kmap, sz)
    {
      hide Inv, TablesOk, PagesOk, Frame, Lookup, AllCopied, Same;
      ghost var m0 := Now();
      Sound();
      d2 := Setupkvm();
      if d2 == 0 {
        return;
      }
      NothingCopied(m0, Now(), d, d2, kmap);
      OtherDirStays(m0, Now(), d2, d);
      var i := 0;
      while i < sz
        invariant 0 <= i && i % PGSIZE == 0 && Valid() && loose == old(loose) && d2 in dirs && d in dirs &&
                  Frame(m0, Now(), d2)
        invariant denied == old(denied)
        invariant AllCopied(m0, Now(), d, d2, kmap, Min(i, sz))
      {
        var ok := CopyPage(d, d2, sz, i, m0);
        if !ok {
          GiveUp(d2, m0);
          return 0;
        }
        i := i + PGSIZE;
      }
    }

    /** The body of the loop of copyuvm. False: no memory. */
    method CopyPage(d: nat, d2: nat, sz: nat, i: nat, ghost m0: Mem) returns (ok: bool)
      requires Valid() && d in dirs && d2 in dirs && d in m0.dirs && d2 !in m0.dirs && i % PGSIZE == 0 &&
               i < sz <= KERNBASE
      requires TablesOk(m0) && PagesOk(m0) && Frame(m0, Now(), d2) && Lookup(m0, d, i / PGSIZE).Pte?
      requires AllCopied(m0, Now(), d, d2, kmap, i)
      modifies this
      ensures Valid() && loose == old(loose) && d in dirs && d2 in dirs && Frame(m0, Now(), d2)
      ensures denied == old(denied) + if ok then 0 else 1
      ensures ok ==> AllCopied(m0, Now(), d, d2, kmap, Min(i + PGSIZE, sz))
    {
      hide Inv, TablesOk, PagesOk, Frame, Lookup, TableThere, AllCopied;
      ghost var m := Now();
      Sound();
      FrameSameDir(m0, m, d2, d);
      var t := Walk(d, i / PGSIZE, false);
      LookupIn(m, d, i / PGSIZE);
      NoTable(m, d, i / PGSIZE);
      var p := tables[t][i / PGSIZE % ENTRIES];
      assert p == Lookup(m0, d, i / PGSIZE);
      ParentPage(m0, m, d, d2, i / PGSIZE);
      var mem := Kalloc();
      if mem == 0 {
        return false;
      }
      ghost var m1 := Now();
      LookupFrom(m, m1, d2, i / PGSIZE);
      NotCopied(m0, m, d, d2, kmap, i);
      FrameThen(m0, m, m1, d2);
      ok := MapUser(d2, i / PGSIZE, mem, p.flags, pages[p.pa]);
      FrameThen(m0, m1, Now(), d2);
      if !ok {
        ghost var m2 := Now();
        Kfree(mem);
        FrameThen(m0, m2, Now(), d2);
        OtherDirStays(m0, Now(), d2, d);
        return false;
      }
      OtherDirStays(m0, Now(), d2, d);
      AllOther(m0, m, d2);
      OneCopied(m0, m, m1, Now(), d, d2, kmap, sz, i, mem);
    }
  }
}
