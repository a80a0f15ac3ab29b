/**
 The list of memory mappings of a process (wmap, wunmap, wremap): only the addresses.

 Lengths are positive signed numbers. A list is in order while no region runs over the end of the
 32-bit address space; the calls do not check that, and their contracts say when they break it.
 What happens to pages and files is left out.
 */
module MapList {
  import opened Wrappers

  const PGSIZE: nat := 4096
  const FIRST: nat := 0x6000_0000
  const LIMIT: nat := 0x8000_0000

  datatype Region = Region(addr: Uint32, length: Uint32)

  function Add(x: Uint32, y: Uint32): Uint32 { (x + y) % TWO32 }

  function RoundUp(x: Uint32): Uint32 { Add(x, PGSIZE - 1) / PGSIZE * PGSIZE }

  /** The page boundary at or above `x`. */
  function PageEnd(x: nat): nat { (x + PGSIZE - 1) / PGSIZE * PGSIZE }

  /** The first address after a region. */
  function End(a: Region): nat { a.addr + a.length }

  /** The test of the source, in 32-bit arithmetic. */
  predicate Clash(a: Region, b: Region) {
    a.addr < Add(b.addr, b.length) && Add(a.addr, a.length) > b.addr
  }

  predicate Inside(x: nat, a: Region) { a.addr <= x < a.addr + a.length }

  /** The two regions have an address in common. */
  ghost predicate Overlap(a: Region, b: Region) {
    exists x: nat :: Inside(x, a) && Inside(x, b)
  }

  /** The region has a positive signed length and does not reach the end of the address space. */
  predicate Sane(a: Region) {
    0 < a.length < LIMIT && End(a) < TWO32
  }

  /** For regions that do not wrap the test is right. */
  lemma ClashIsOverlap(a: Region, b: Region)
    requires 0 < a.length && 0 < b.length && End(a) < TWO32 && End(b) < TWO32
    ensures Clash(a, b) <==> Overlap(a, b)
  {
    if Clash(a, b) {
      var x := if a.addr < b.addr then b.addr else a.addr;
      assert Inside(x, a) && Inside(x, b);
    }
  }

  /** And it is right for all pairs of a list exactly if no region of the list wraps. */
  lemma TestIsRight(rs: seq<Region>)
    requires forall i :: 0 <= i < |rs| ==> rs[i].length > 0
    ensures (forall i, j :: 0 <= i < |rs| && 0 <= j < |rs| ==> (Clash(rs[i], rs[j]) <==> Overlap(rs[i], rs[j]))) <==>
            forall i :: 0 <= i < |rs| ==> End(rs[i]) < TWO32
  {
    if forall i :: 0 <= i < |rs| ==> End(rs[i]) < TWO32 {
      forall i, j | 0 <= i < |rs| && 0 <= j < |rs|
        ensures Clash(rs[i], rs[j]) <==> Overlap(rs[i], rs[j])
      {
        ClashIsOverlap(rs[i], rs[j]);
      }
    } else {
      var i :| 0 <= i < |rs| && End(rs[i]) >= TWO32;
      assert Inside(rs[i].addr, rs[i]);
      assert Overlap(rs[i], rs[i]) && !Clash(rs[i], rs[i]);
    }
  }

  /** For a region that ends at the very top it is not: the last page does not clash with itself. */
  lemma Unchecked()
    ensures var last := Region(0xFFFF_F000, 0x1000); !Clash(last, last) && Overlap(last, last)
  {
    assert Inside(0xFFFF_F000, Region(0xFFFF_F000, 0x1000));
  }

  // ---------------------------------------------------------------------------
  // Lists of regions

  ghost predicate AllSane(rs: seq<Region>) {
    forall i :: 0 <= i < |rs| ==> Sane(rs[i])
  }

  ghost predicate Disjoint(rs: seq<Region>) {
    forall i, j :: 0 <= i < j < |rs| ==> !Clash(rs[i], rs[j])
  }

  /** The regions are sane and no two of them clash. */
  ghost predicate RegionsOk(rs: seq<Region>) {
    AllSane(rs) && Disjoint(rs)
  }

  /** The region clashes with no other. */
  ghost predicate Fits(rs: seq<Region>, a: Region) {
    forall i :: 0 <= i < |rs| ==> !Clash(a, rs[i])
  }

  /** A place where wmap may put a region that is not fixed. */
  ghost predicate Candidate(rs: seq<Region>, addr: nat, length: Uint32) {
    FIRST <= addr && addr % PGSIZE == 0 && addr + length <= LIMIT && Fits(rs, Region(addr, length))
  }

  ghost predicate Lowest(rs: seq<Region>, addr: nat, length: Uint32) {
    Candidate(rs, addr, length) && forall b: nat :: b < addr ==> !Candidate(rs, b, length)
  }

  /** The jump behind a region that clashes goes forward. */
  lemma Forward(addr: nat, length: Uint32, me: Region)
    requires Sane(me) && addr + length < TWO32 && Clash(Region(addr, length), me)
    ensures addr < PageEnd(End(me)) <= TWO32 && PageEnd(End(me)) % PGSIZE == 0
    ensures RoundUp(Add(me.addr, me.length)) == PageEnd(End(me)) % TWO32
  {
  }

  /** No page before the end of a region that clashes will do. */
  lemma Onward(rs: seq<Region>, addr: nat, length: Uint32, me: Region)
    requires me in rs && Sane(me) && addr + length < TWO32 && addr % PGSIZE == 0 && Clash(Region(addr, length), me)
    ensures addr < PageEnd(End(me)) <= TWO32 && PageEnd(End(me)) % PGSIZE == 0
    ensures forall b: nat :: addr <= b < PageEnd(End(me)) ==> !Candidate(rs, b, length)
  {
    Forward(addr, length, me);
    forall b: nat | addr <= b < PageEnd(End(me))
      ensures !Candidate(rs, b, length)
    {
      BelowPageEnd(b, End(me));
      assert b % PGSIZE == 0 && b + length <= LIMIT ==> Clash(Region(b, length), me);
    }
  }

  lemma BelowPageEnd(b: nat, end: nat)
    requires b < PageEnd(end)
    ensures b % PGSIZE == 0 ==> b < end
  {
  }

  /** Growing in place is refused as soon as another region starts at or below the new end, in 32-bit arithmetic. */
  ghost predicate Crowded(rs: seq<Region>, k: nat, newsize: Uint32)
    requires k < |rs|
  {
    newsize > rs[k].length && exists j :: 0 <= j < |rs| && j != k && rs[j].addr <= Add(rs[k].addr, newsize)
  }

  /** Another region is in the way of the grown one. */
  ghost predicate Blocked(rs: seq<Region>, k: nat, newsize: Uint32)
    requires k < |rs|
  {
    exists j :: 0 <= j < |rs| && j != k && Clash(Region(rs[k].addr, newsize), rs[j])
  }

  /** Another region starts inside the grown one. */
  ghost predicate StartsInside(rs: seq<Region>, k: nat, newsize: Uint32)
    requires k < |rs|
  {
    exists j :: 0 <= j < |rs| && j != k && rs[k].addr < rs[j].addr < rs[k].addr + newsize
  }

  /** All other regions start above the end of the grown one. */
  ghost predicate AllAbove(rs: seq<Region>, k: nat, newsize: Uint32)
    requires k < |rs|
  {
    forall j :: 0 <= j < |rs| && j != k ==> rs[j].addr > rs[k].addr + newsize
  }

  /**
   When the test of wremap is right about a region that grows: if another region really starts
   inside, or if all others start above it. In between it refuses without reason.
   */
  lemma RefusalIsRight(rs: seq<Region>, k: nat, newsize: Uint32)
    requires RegionsOk(rs) && k < |rs| && newsize > rs[k].length && Sane(Region(rs[k].addr, newsize))
    ensures (Crowded(rs, k, newsize) <==> Blocked(rs, k, newsize)) <==>
              StartsInside(rs, k, newsize) || AllAbove(rs, k, newsize)
    ensures Blocked(rs, k, newsize) ==> Crowded(rs, k, newsize)
  {
    var grown := Region(rs[k].addr, newsize);
    forall j | 0 <= j < |rs| && j != k
      ensures Clash(grown, rs[j]) <==> rs[k].addr < rs[j].addr < rs[k].addr + newsize
    {
      assert Sane(rs[j]) && Sane(rs[k]);
      assert if j < k then !Clash(rs[j], rs[k]) else !Clash(rs[k], rs[j]);
    }
    hide RegionsOk, Clash;
    assert Add(rs[k].addr, newsize) == rs[k].addr + newsize;
    if StartsInside(rs, k, newsize) {
      var j :| 0 <= j < |rs| && j != k && rs[k].addr < rs[j].addr < rs[k].addr + newsize;
      assert Clash(grown, rs[j]);
    }
  }

  /** For instance a region far below is in the way. */
  lemma CrowdedWithoutReason()
    ensures var rs := [Region(FIRST, 0x1000), Region(FIRST + 0x10000, 0x1000)];
            Crowded(rs, 1, 0x2000) && !Blocked(rs, 1, 0x2000)
  {
    assert [Region(FIRST, 0x1000), Region(FIRST + 0x10000, 0x1000)][0].addr <= FIRST + 0x10000 + 0x2000;
  }

  /** A region that is not crowded may take its new size exactly if that does not make it wrap. */
  lemma ResizeOk(rs: seq<Region>, k: nat, newsize: Uint32)
    requires RegionsOk(rs) && k < |rs| && !Crowded(rs, k, newsize) && 0 < newsize < LIMIT
    ensures RegionsOk(rs[k := Region(rs[k].addr, newsize)]) <==> rs[k].addr + newsize < TWO32
  {
    var rs' := rs[k := Region(rs[k].addr, newsize)];
    if rs[k].addr + newsize < TWO32 {
      forall i, j | 0 <= i < j < |rs'|
        ensures !Clash(rs'[i], rs'[j])
      {
        assert !Clash(rs[i], rs[j]) && Sane(rs[i]) && Sane(rs[j]);
        assert i == k && newsize > rs[k].length ==> rs[j].addr > rs[k].addr + newsize;
        assert j == k && newsize > rs[k].length ==> rs[i].addr > rs[k].addr + newsize;
      }
    } else {
      assert !Sane(rs'[k]);
    }
  }

  lemma WithoutTail<T>(x: T, s: seq<T>, k: nat)
    requires k < |s|
    ensures Without([x] + s, k + 1) == [x] + Without(s, k)
  {
  }

  lemma OkWithout(rs: seq<Region>, k: nat)
    requires RegionsOk(rs) && k < |rs|
    ensures RegionsOk(Without(rs, k))
  {
    var rs' := Without(rs, k);
    forall i, j | 0 <= i < j < |rs'|
      ensures !Clash(rs'[i], rs'[j])
    {
      assert !Clash(rs[if i < k then i else i + 1], rs[if j < k then j else j + 1]);
    }
  }

  /** A region that clashes with no other keeps the list in order exactly if it does not wrap. */
  lemma OkWith(rs: seq<Region>, a: Region)
    requires RegionsOk(rs) && Fits(rs, a) && 0 < a.length < LIMIT
    ensures RegionsOk([a] + rs) <==> End(a) < TWO32
  {
    var rs' := [a] + rs;
    assert rs'[0] == a;
    assert forall i :: 0 < i < |rs'| ==> rs'[i] == rs[i - 1];
  }

  // ---------------------------------------------------------------------------
  // The search for a place

  /** The first region of the list that clashes with `a`; the length of the list if there is none. */
  function FirstHit(rs: seq<Region>, a: Region): (k: nat)
    ensures k <= |rs| && (k < |rs| ==> Clash(a, rs[k])) && forall i :: 0 <= i < k ==> !Clash(a, rs[i])
  {
    if rs == [] || Clash(a, rs[0]) then 0 else 1 + FirstHit(rs[1..], a)
  }

  /** Where the search comes to: a place, past the limit, or to where its 32-bit sums wrap. */
  datatype Stop = Fit(addr: nat) | Past | Over(next: nat)

  /** The walk of the search from `addr` on, in unbounded arithmetic. */
  function Walk(rs: seq<Region>, addr: nat, length: Uint32): Stop
    requires AllSane(rs) && 0 < length < LIMIT && addr + length < TWO32 && addr % PGSIZE == 0
    decreases TWO32 - addr
  {
    var k := FirstHit(rs, Region(addr, length));
    if k == |rs| then (if addr + length > LIMIT then Past else Fit(addr))
    else
      Forward(addr, length, rs[k]);
      var next := PageEnd(End(rs[k]));
      if next + length >= TWO32 then Over(next) else if next + length > LIMIT then Past else Walk(rs, next, length)
  }

  /** What the search of wmap and wremap gives. */
  datatype Search = Found(addr: Uint32) | NoPlace | Endless

  /**
   If the sums wrap the search takes the wrapped place, or starts again from address 0, for ever if
   that comes to the same.
   */
  function Outcome(rs: seq<Region>, length: Uint32): Search
    requires AllSane(rs) && 0 < length < LIMIT
  {
    match Walk(rs, FIRST, length)
    case Fit(a) => FitInLimit(rs, FIRST, length); Found(a)
    case Past => NoPlace
    case Over(n) =>
      if n < TWO32 then Found(n)
      else
        match Walk(rs, 0, length)
        case Fit(a) => FitInLimit(rs, 0, length); Found(a)
        case Past => NoPlace
        case Over(m) => if m < TWO32 then Found(m) else Endless
  }

  lemma {:induction false} FitInLimit(rs: seq<Region>, addr: nat, length: Uint32)
    requires AllSane(rs) && 0 < length < LIMIT && addr + length < TWO32 && addr % PGSIZE == 0
    ensures var w := Walk(rs, addr, length);
            w.Fit? ==>
              && addr <= w.addr && w.addr + length <= LIMIT && w.addr % PGSIZE == 0
              && Fits(rs, Region(w.addr, length))
    decreases TWO32 - addr
  {
    var k := FirstHit(rs, Region(addr, length));
    if k < |rs| {
      Onward(rs, addr, length, rs[k]);
      var next := PageEnd(End(rs[k]));
      if next + length <= LIMIT {
        FitInLimit(rs, next, length);
      }
    }
  }

  /** The walk skips no place that would do. */
  lemma {:induction false} WalkSkipsNone(rs: seq<Region>, addr: nat, length: Uint32)
    requires AllSane(rs) && 0 < length < LIMIT && addr + length < TWO32 && addr % PGSIZE == 0
    ensures var w := Walk(rs, addr, length);
            forall b: nat :: addr <= b && (w.Fit? ==> b < w.addr) ==> !Candidate(rs, b, length)
    decreases TWO32 - addr
  {
    var k := FirstHit(rs, Region(addr, length));
    if k < |rs| {
      Onward(rs, addr, length, rs[k]);
      var next := PageEnd(End(rs[k]));
      if next + length <= LIMIT {
        WalkSkipsNone(rs, next, length);
      }
    }
  }

  /** Where the sums wrap there is a region that ends on that page. */
  lemma {:induction false} OverWhat(rs: seq<Region>, addr: nat, length: Uint32) returns (k: nat)
    requires AllSane(rs) && 0 < length < LIMIT && addr + length < TWO32 && addr % PGSIZE == 0
    ensures var w := Walk(rs, addr, length);
            w.Over? ==>
              && k < |rs| && w.next == PageEnd(End(rs[k])) && w.next <= TWO32 <= w.next + length
              && w.next % PGSIZE == 0
    decreases TWO32 - addr
  {
    k := FirstHit(rs, Region(addr, length));
    if k < |rs| {
      Onward(rs, addr, length, rs[k]);
      var next := PageEnd(End(rs[k]));
      if next + length <= LIMIT {
        k := OverWhat(rs, next, length);
      }
    }
  }

  /** At a wrapped place the test finds no clash. */
  lemma WrappedFits(rs: seq<Region>, k: nat, next: Uint32, length: Uint32)
    requires RegionsOk(rs) && k < |rs| && next == PageEnd(End(rs[k])) && next + length >= TWO32 && length < LIMIT
    ensures Fits(rs, Region(next, length))
  {
    forall i | 0 <= i < |rs|
      ensures !Clash(Region(next, length), rs[i])
    {
      assert Sane(rs[i]) && Sane(rs[k]);
      assert i < k ==> !Clash(rs[i], rs[k]);
      assert k < i ==> !Clash(rs[k], rs[i]);
    }
  }

  /** The search is at `addr`, on its walk from the first address or, after a wrap, from 0. */
  ghost predicate OnTheWay(rs: seq<Region>, length: Uint32, addr: Uint32, again: bool)
    requires AllSane(rs) && 0 < length < LIMIT
  {
    && addr % PGSIZE == 0 && (again ==> Walk(rs, FIRST, length) == Over(TWO32))
    && Walk(rs, if again then 0 else FIRST, length) == if addr + length < TWO32 then Walk(rs, addr, length)
       else Over(addr)
  }

  lemma SearchStart(rs: seq<Region>, length: Uint32)
    requires AllSane(rs) && 0 < length < LIMIT
    ensures OnTheWay(rs, length, FIRST, false)
  {
  }

  /** One turn of the loop of the search. */
  lemma SearchTurn(rs: seq<Region>, length: Uint32, addr: Uint32, again: bool)
    requires RegionsOk(rs) && 0 < length < LIMIT && OnTheWay(rs, length, addr, again)
    ensures AllSane(rs)
    ensures var k, result := FirstHit(rs, Region(addr, length)), Outcome(rs, length);
            if k == |rs| then result == if Add(addr, length) > LIMIT then NoPlace else Found(addr)
            else
              var next := RoundUp(Add(rs[k].addr, rs[k].length));
              if next == 0 && again then result == Endless
              else if Add(next, length) > LIMIT then result == NoPlace
              else OnTheWay(rs, length, next, again || next == 0) && (next > addr || (next == 0 && !again))
  {
    hide Walk, Outcome, OnTheWay, RegionsOk;
    var k := FirstHit(rs, Region(addr, length));
    if addr + length >= TWO32 {
      TurnWrapped(rs, length, addr, again);
    } else if k == |rs| {
      TurnFits(rs, length, addr, again);
    } else {
      TurnClashes(rs, length, addr, again, k);
    }
  }

  lemma TurnWrapped(rs: seq<Region>, length: Uint32, addr: Uint32, again: bool)
    requires RegionsOk(rs) && 0 < length < LIMIT && OnTheWay(rs, length, addr, again) && addr + length >= TWO32
    ensures AllSane(rs) && FirstHit(rs, Region(addr, length)) == |rs|
    ensures Add(addr, length) <= LIMIT && Outcome(rs, length) == Found(addr)
  {
    hide Walk;
    var j := OverWhat(rs, if again then 0 else FIRST, length);
    WrappedFits(rs, j, addr, length);
  }

  lemma {:induction false} WalkStep(rs: seq<Region>, addr: nat, length: Uint32)
    requires AllSane(rs) && 0 < length < LIMIT && addr + length < TWO32 && addr % PGSIZE == 0
    ensures var k, w := FirstHit(rs, Region(addr, length)), Walk(rs, addr, length);
            if k == |rs| then w == if addr + length > LIMIT then Past else Fit(addr)
            else
              var next := PageEnd(End(rs[k]));
              if next + length >= TWO32 then w == Over(next)
              else if next + length > LIMIT then w == Past
              else next % PGSIZE == 0 && w == Walk(rs, next, length)
  {
  }

  lemma TurnFits(rs: seq<Region>, length: Uint32, addr: Uint32, again: bool)
    requires RegionsOk(rs) && 0 < length < LIMIT && OnTheWay(rs, length, addr, again) && addr + length < TWO32
    requires FirstHit(rs, Region(addr, length)) == |rs|
    ensures AllSane(rs) && Outcome(rs, length) == if Add(addr, length) > LIMIT then NoPlace else Found(addr)
  {
    hide Walk, FirstHit;
    WalkStep(rs, addr, length);
  }

  lemma TurnClashes(rs: seq<Region>, length: Uint32, addr: Uint32, again: bool, k: nat)
    requires RegionsOk(rs) && 0 < length < LIMIT && OnTheWay(rs, length, addr, again) && addr + length < TWO32
    requires k < |rs| && k == FirstHit(rs, Region(addr, length))
    ensures AllSane(rs)
    ensures var next := RoundUp(Add(rs[k].addr, rs[k].length));
            if next == 0 && again then Outcome(rs, length) == Endless
            else if Add(next, length) > LIMIT then Outcome(rs, length) == NoPlace
            else OnTheWay(rs, length, next, again || next == 0) && (next > addr || (next == 0 && !again))
  {
    hide Walk, FirstHit, Clash, RoundUp, PageEnd, Disjoint;
    WalkStep(rs, addr, length);
    Forward(addr, length, rs[k]);
    var next := PageEnd(End(rs[k]));
    assert RoundUp(Add(rs[k].addr, rs[k].length)) == if next == TWO32 then 0 else next;
  }

  /** The search does what it is for: the lowest place, or none just when there is none. */
  ghost predicate Right(rs: seq<Region>, length: Uint32, s: Search) {
    match s
    case Found(a) => Lowest(rs, a, length)
    case NoPlace => forall b: nat :: !Candidate(rs, b, length)
    case Endless => false
  }

  /**
   When the search is right: its sums do not wrap, or they wrap to address 0 and from there it comes
   past the limit.
   */
  lemma SearchIsRight(rs: seq<Region>, length: Uint32)
    requires RegionsOk(rs) && 0 < length < LIMIT
    ensures Right(rs, length, Outcome(rs, length)) <==>
            !Walk(rs, FIRST, length).Over? || (Walk(rs, FIRST, length) == Over(TWO32) && Walk(rs, 0, length) == Past)
  {
    hide Walk;
    FitInLimit(rs, FIRST, length);
    WalkSkipsNone(rs, FIRST, length);
    var k := OverWhat(rs, FIRST, length);
    FitInLimit(rs, 0, length);
    var k0 := OverWhat(rs, 0, length);
  }

  /** In particular if there is a place, or if no region ends where its page end plus the length wraps. */
  lemma RightWhen(rs: seq<Region>, length: Uint32)
    requires RegionsOk(rs) && 0 < length < LIMIT
    requires (exists b: nat :: Candidate(rs, b, length)) || forall i :: 0 <= i < |rs| ==>
               PageEnd(End(rs[i])) + length < TWO32
    ensures Right(rs, length, Outcome(rs, length))
  {
    hide Walk;
    WalkSkipsNone(rs, FIRST, length);
    var k := OverWhat(rs, FIRST, length);
    SearchIsRight(rs, length);
  }

  /** It may give a place above the limit, where the new region wraps. */
  lemma HighPlace()
    ensures var rs := [Region(0x7FFF_0000, 0x7001_0000)];
            RegionsOk(rs) && Outcome(rs, 0x2000_0000) == Found(0xF000_0000)
  {
    var rs := [Region(0x7FFF_0000, 0x7001_0000)];
    assert FirstHit(rs, Region(FIRST, 0x2000_0000)) == 0;
  }

  /** It may give a place below the first address. */
  lemma LowPlace()
    ensures var rs := [Region(0x7FFF_F800, 0x7FFF_FFFF)];
            RegionsOk(rs) && Outcome(rs, 0x2000_0000) == Found(0)
  {
    var rs := [Region(0x7FFF_F800, 0x7FFF_FFFF)];
    assert FirstHit(rs, Region(FIRST, 0x2000_0000)) == 0;
    assert FirstHit(rs, Region(0, 0x2000_0000)) == 1;
  }

  /** And it may never end. */
  lemma EndlessSearch()
    ensures var rs := [Region(0x7FFF_F800, 0x7FFF_FFFF), Region(0x1000_0000, 0x5000_0000)];
            RegionsOk(rs) && Outcome(rs, 0x2000_0000) == Endless
  {
    var rs := [Region(0x7FFF_F800, 0x7FFF_FFFF), Region(0x1000_0000, 0x5000_0000)];
    assert FirstHit(rs, Region(FIRST, 0x2000_0000)) == 0;
    assert FirstHit(rs, Region(0, 0x2000_0000)) == 1;
  }

  /** A move: one region out, another one in. */
  lemma MovedOk(rs: seq<Region>, a: Region, k: nat)
    requires RegionsOk(rs) && Fits(rs, a) && 0 < a.length < LIMIT && k < |rs|
    ensures RegionsOk([a] + Without(rs, k)) <==> End(a) < TWO32
  {
    OkWithout(rs, k);
    OkWith(Without(rs, k), a);
  }

  /** A region that keeps its size has not changed, and one that does not wrap keeps the list in order. */
  lemma SameOrGrown(rs: seq<Region>, k: nat, newsize: Uint32)
    requires RegionsOk(rs) && k < |rs|
    ensures rs[k := Region(rs[k].addr, newsize)] == rs ==> rs[k].addr + newsize < TWO32
  {
    assert Sane(rs[k]);
  }

  /** A list with a region in another place is another list, unless nothing has wrapped. */
  lemma OtherLength(rs: seq<Region>, k: nat, newaddr: Uint32, newsize: Uint32)
    requires RegionsOk(rs) && k < |rs|
    ensures [Region(newaddr, newsize)] + Without(rs, k) == rs ==> newaddr + newsize < TWO32
  {
    assert Sane(rs[0]);
  }

  /** What a system call gives; Forever: it never returns. */
  datatype Mapping = Mapped(addr: Uint32) | Failed | Forever

  /** What wremap does with region `k`. */
  ghost predicate Remapped(rs: seq<Region>, k: nat, newsize: Uint32, mayMove: bool, memory: bool, r: Mapping,
                           rs': seq<Region>)
    requires RegionsOk(rs) && k < |rs| && 0 < newsize < LIMIT
  {
    if !Crowded(rs, k, newsize) then r == Mapped(rs[k].addr) && rs' == rs[k := Region(rs[k].addr, newsize)]
    else if !mayMove then r == Failed && rs' == rs
    else
      match Outcome(rs, newsize)
      case Endless => r == Forever && rs' == rs
      case NoPlace => r == Mapped(rs[k].addr) && rs' == rs
      case Found(a) =>
        if memory then r == Mapped(a) && rs' == [Region(a, newsize)] + Without(rs, k)
        else r == Mapped(rs[k].addr) && rs' == rs
  }

  // ---------------------------------------------------------------------------
  // The linked list

  predicate NextOk(es: seq<Entry>, i: nat)
    reads es
    requires i < |es|
  {
    es[i].next == At(es, i + 1)
  }

  /** `next` leads from each entry to the one after it, and no entry is there twice. */
  ghost predicate Linked(es: seq<Entry>)
    reads es
  {
    && (forall i, j :: 0 <= i < j < |es| ==> es[i] != es[j])
    && forall i :: 0 <= i < |es| ==> NextOk(es, i)
  }

  ghost predicate Holds(es: seq<Entry>, rs: seq<Region>)
    reads es
  {
    |es| == |rs| && forall i :: 0 <= i < |es| ==> Region(es[i].addr, es[i].length) == rs[i]
  }

  class Entry {
    var addr: Uint32
    var length: Uint32
    var next: Entry?

    constructor (addr: Uint32, length: Uint32, next: Entry?)
      ensures this.addr == addr && this.length == length && this.next == next
    {
      this.addr, this.length, this.next := addr, length, next;
    }
  }

  function At(es: seq<Entry>, i: nat): Entry? {
    if i < |es| then es[i] else null
  }

  class Process {
    var mmaps: Entry?
    ghost var entries: seq<Entry>
    /** The regions, in the order of the list. */
    ghost var regions: seq<Region>

    /** The entries are linked and hold the regions. */
    ghost predicate Listed()
      reads this, entries
    {
      mmaps == At(entries, 0) && Linked(entries) && Holds(entries, regions)
    }

    ghost predicate Valid()
      reads this, entries
    {
      Listed() && RegionsOk(regions)
    }

    constructor ()
      ensures Valid() && regions == []
    {
      mmaps, entries, regions := null, [], [];
    }

    /** The loop over the list: the first entry that clashes with the region. */
    method FirstClash(addr: Uint32, length: Uint32) returns (me: Entry?)
      requires Listed()
      ensures me == At(entries, FirstHit(regions, Region(addr, length)))
      ensures me == null <==> Fits(regions, Region(addr, length))
    {
      me := mmaps;
      ghost var k := 0;
      while me != null
        invariant 0 <= k <= |entries| && me == At(entries, k)
        invariant forall i :: 0 <= i < k ==> !Clash(Region(addr, length), regions[i])
        decreases |entries| - k
      {
        assert Region(me.addr, me.length) == regions[k] && NextOk(entries, k);
        if addr < Add(me.addr, me.length) && Add(addr, length) > me.addr {
          return;
        }
        me := me.next;
        k := k + 1;
      }
    }

    /**
     The search of wmap and wremap. A second return to address 0 is a return to the same state of
     the loop, which then never ends.
     */
    method FindPlace(length: Uint32) returns (r: Search)
      requires Valid() && 0 < length < LIMIT
      ensures r == Outcome(regions, length)
      ensures r.Found? ==> Fits(regions, Region(r.addr, length))
    {
      hide AllSane, Disjoint, Outcome, OnTheWay, Fits;
      var addr: Uint32, again := FIRST, false;
      SearchStart(regions, length);
      while true
        invariant OnTheWay(regions, length, addr, again)
        decreases !again, TWO32 - addr
      {
        SearchTurn(regions, length, addr, again);
        var me := FirstClash(addr, length);
        if me == null {
          return if Add(addr, length) > LIMIT then NoPlace else Found(addr);
        }
        assert Region(me.addr, me.length) == regions[FirstHit(regions, Region(addr, length))];
        addr := RoundUp(Add(me.addr, me.length));
        if addr == 0 {
          if again {
            return Endless;
          }
          again := true;
        }
        if Add(addr, length) > LIMIT {
          return NoPlace;
        }
      }
    }

    /**
     wmap, once its arguments are checked. `memory` is whether kalloc finds a page for the entry. The
     list stays in order exactly if the new region does not wrap.
     */
    method Wmap(fixed: bool, addr0: Uint32, length: Uint32, memory: bool) returns (r: Mapping)
      requires Valid() && 0 < length < LIMIT
      modifies this
      ensures Listed() && regions == if r.Mapped? then [Region(r.addr, length)] + old(regions) else old(regions)
      ensures fixed ==> r == if memory && Fits(old(regions), Region(addr0, length)) then Mapped(addr0) else Failed
      ensures !fixed ==> r == match Outcome(old(regions), length)
                              case Found(a) => if memory then Mapped(a) else Failed
                              case NoPlace => Failed
                              case Endless => Forever
      ensures Valid() <==> r.Mapped? ==> r.addr + length < TWO32
    {
      var addr := addr0;
      if !fixed {
        var place := FindPlace(length);
        match place {
          case Found(a) => addr := a;
          case NoPlace => return Failed;
          case Endless => return Forever;
        }
      } else {
        var me := FirstClash(addr, length);
        if me != null {
          return Failed;
        }
      }
      if !memory {
        return Failed;
      }
      Insert(addr, length);
      return Mapped(addr);
    }

    /** A new entry at the head of the list. */
    method Insert(addr: Uint32, length: Uint32)
      requires Valid() && 0 < length < LIMIT && Fits(regions, Region(addr, length))
      modifies this
      ensures Listed() && regions == [Region(addr, length)] + old(regions)
      ensures Valid() <==> addr + length < TWO32
      ensures |entries| > 0 && entries[1..] == old(entries) && fresh(entries[0])
    {
      hide RegionsOk, Fits;
      ghost var es := entries;
      OkWith(regions, Region(addr, length));
      var me := new Entry(addr, length, mmaps);
      mmaps, entries, regions := me, [me] + entries, [Region(addr, length)] + regions;
      forall i | 0 <= i < |entries|
        ensures NextOk(entries, i)
      {
        assert i > 0 ==> NextOk(es, i - 1);
      }
    }

    /** wunmap: the first entry with that address leaves the list. */
    method Wunmap(addr: Uint32) returns (ok: bool)
      requires Listed()
      modifies this, entries
      ensures Listed() && (old(Valid()) ==> Valid())
      ensures !ok ==> regions == old(regions) && forall i :: 0 <= i < |regions| ==> regions[i].addr != addr
      ensures ok ==> exists k :: 0 <= k < |old(regions)| && old(regions)[k].addr == addr
                                 && regions == Without(old(regions), k)
                                 && forall i :: 0 <= i < k ==> old(regions)[i].addr != addr
    {
      hide RegionsOk;
      var pme: Entry? := null;
      var me := mmaps;
      ghost var k := 0;
      while me != null
        invariant 0 <= k <= |entries| && me == At(entries, k) && pme == if k == 0 then null else At(entries, k - 1)
        invariant forall i :: 0 <= i < k ==> regions[i].addr != addr
        decreases |entries| - k
      {
        assert Region(me.addr, me.length) == regions[k] && NextOk(entries, k);
        if me.addr == addr {
          Unlink(pme, me, k);
          if RegionsOk(old(regions)) { OkWithout(old(regions), k); }
          return true;
        }
        pme := me;
        me := me.next;
        k := k + 1;
      }
      return false;
    }

    /** Entry `k` is taken out of the list; `pme` is the one before it. */
    method Unlink(pme: Entry?, me: Entry, ghost k: nat)
      requires Listed() && k < |entries| && me == entries[k] && pme == if k == 0 then null else At(entries, k - 1)
      modifies this, pme
      ensures Listed() && entries == Without(old(entries), k) && regions == Without(old(regions), k)
    {
      ghost var es := entries;
      assert NextOk(es, k);
      if pme != null {
        pme.next := me.next;
      } else {
        mmaps := me.next;
      }
      entries, regions := Without(entries, k), Without(regions, k);
      forall i | 0 <= i < |entries|
        ensures NextOk(entries, i)
      {
        assert entries[i] == es[if i < k then i else i + 1];
        assert i != k - 1 ==> old(NextOk(es, if i < k then i else i + 1));
      }
    }

    /** The first loop of wremap. */
    method FindMapping(addr: Uint32, length: int) returns (me: Entry?, pme: Entry?, ghost k: nat)
      requires Listed()
      ensures me == At(entries, k) && pme == if k == 0 then null else At(entries, k - 1)
      ensures me == null ==> k == |entries| && forall i :: 0 <= i < |regions| ==>
                !(regions[i].addr == addr && regions[i].length == length)
      ensures me != null ==> k < |entries| && regions[k].addr == addr && regions[k].length == length
      ensures me != null ==> me.addr == addr && me.length == length && (pme != null ==> pme.next == me)
    {
      me, pme, k := mmaps, null, 0;
      while me != null && !(me.addr == addr && me.length == length)
        invariant k <= |entries| && me == At(entries, k) && pme == if k == 0 then null else At(entries, k - 1)
        invariant pme != null ==> pme.next == me
        invariant forall i :: 0 <= i < k ==> !(regions[i].addr == addr && regions[i].length == length)
        decreases |entries| - k
      {
        assert Region(me.addr, me.length) == regions[k] && NextOk(entries, k);
        pme := me;
        me := me.next;
        k := k + 1;
      }
      assert me != null ==> Region(me.addr, me.length) == regions[k];
    }

    /** The second loop of wremap: somebody else starts at or below the new end. */
    method MustMove(me: Entry, newsize: Uint32, ghost k: nat) returns (b: bool)
      requires Listed() && k < |entries| && me == entries[k]
      ensures b <==> Crowded(regions, k, newsize)
    {
      b := false;
      assert Region(me.addr, me.length) == regions[k];
      if newsize > me.length {
        var other := mmaps;
        ghost var j := 0;
        while other != null
          invariant 0 <= j <= |entries| && other == At(entries, j)
          invariant forall i :: 0 <= i < j && i != k ==> regions[i].addr > Add(regions[k].addr, newsize)
          decreases |entries| - j
        {
          assert Region(other.addr, other.length) == regions[j] && NextOk(entries, j);
          assert me != other <==> j != k;
          if me != other && other.addr <= Add(me.addr, newsize) {
            return true;
          }
          other := other.next;
          j := j + 1;
        }
      }
    }

    /**
     wremap. In place if nobody else starts at or below the new end; else, if it may move, to the
     place that the search gives while the old mapping is still there. If it gives none, nothing
     happens, and the old address comes back all the same. The list stays in order exactly if the
     new region does not wrap.
     */
    method Wremap(oldaddr: Uint32, oldsize: int, newsize: int, mayMove: bool, memory: bool)
      returns (r: Mapping, ghost k: nat)
      requires Valid() && newsize < LIMIT
      modifies this, entries
      ensures Listed()
      ensures k < |old(regions)| ==> old(regions)[k].addr == oldaddr && old(regions)[k].length == oldsize
      ensures k >= |old(regions)| ==> newsize <= 0 || forall i :: 0 <= i < |old(regions)| ==>
                !(old(regions)[i].addr == oldaddr && old(regions)[i].length == oldsize)
      ensures newsize <= 0 || k >= |old(regions)| ==> r == Failed && regions == old(regions)
      ensures newsize > 0 && k < |old(regions)| ==>
                Remapped(old(regions), k, newsize, mayMove, memory, r, regions)
      ensures Valid() <==> regions == old(regions) || (r.Mapped? && r.addr + newsize < TWO32)
    {
      hide Crowded, RegionsOk, Fits, Outcome;
      k := |regions|;
      if newsize <= 0 {
        return Failed, k;
      }
      var me, pme;
      me, pme, k := FindMapping(oldaddr, oldsize);
      if me == null {
        return Failed, k;
      }
      var mustMove := MustMove(me, newsize, k);
      if mustMove && !mayMove {
        return Failed, k;
      }
      if !mustMove || !mayMove {
        SameOrGrown(regions, k, newsize);
        Resize(me, newsize, k);
        return Mapped(oldaddr), k;
      }
      var place := FindPlace(newsize);
      match place {
        case Found(newaddr) =>
          if !memory {
            return Mapped(oldaddr), k;
          }
          OtherLength(regions, k, newaddr, newsize);
          Move(me, pme, newaddr, newsize, k);
          return Mapped(newaddr), k;
        case NoPlace => return Mapped(oldaddr), k;
        case Endless => return Forever, k;
      }
    }

    /** The new entry goes to the head of the list, and then the old one is unlinked, even if it was the head. */
    method Move(me: Entry, pme: Entry?, newaddr: Uint32, newsize: Uint32, ghost k: nat)
      requires Valid() && k < |entries| && me == entries[k] && pme == if k == 0 then null else At(entries, k - 1)
      requires 0 < newsize < LIMIT && Fits(regions, Region(newaddr, newsize))
      modifies this, entries
      ensures Listed() && regions == [Region(newaddr, newsize)] + Without(old(regions), k)
      ensures Valid() <==> newaddr + newsize < TWO32
    {
      hide Fits, RegionsOk;
      ghost var rs, es := regions, entries;
      Insert(newaddr, newsize);
      assert entries[1..][k] == me;
      assert pme != null ==> entries[1..][k - 1] == pme;
      Unlink(if pme == null then mmaps else pme, me, k + 1);
      WithoutTail(Region(newaddr, newsize), rs, k);
      MovedOk(rs, Region(newaddr, newsize), k);
    }

    /** `me->length = newsize`. */
    method Resize(me: Entry, newsize: Uint32, ghost k: nat)
      requires Valid() && k < |entries| && me == entries[k] && 0 < newsize < LIMIT && !Crowded(regions, k, newsize)
      modifies this`regions, me`length
      ensures Listed() && regions == old(regions)[k := Region(me.addr, newsize)]
      ensures Valid() <==> me.addr + newsize < TWO32
    {
      hide RegionsOk, Crowded;
      assert Region(me.addr, me.length) == regions[k];
      ResizeOk(regions, k, newsize);
      me.length := newsize;
      regions := regions[k := Region(me.addr, newsize)];
      forall i | 0 <= i < |entries|
        ensures NextOk(entries, i)
      {
        assert old(NextOk(entries, i));
      }
    }
  }

  /** Regions of a list are apart as sets of addresses. */
  lemma NoCommonAddress(p: Process, i: nat, j: nat, x: nat)
    requires p.Valid() && i < j < |p.regions|
    ensures !(Inside(x, p.regions[i]) && Inside(x, p.regions[j]))
  {
    hide Clash;
    assert !Clash(p.regions[i], p.regions[j]) && Sane(p.regions[i]) && Sane(p.regions[j]);
    ClashIsOverlap(p.regions[i], p.regions[j]);
  }
}
