/** The four-level depth summary of one side of an order book, against the whole book. */
module OrderBook {
  import opened Wrappers
  import opened MachineInt

  const BOOK_DEPTH_LEVELS: nat := 4

  datatype BookLevel = BookLevel(price: int, sizeAtoms: int)

  /** Best first. */
  type Ladder = seq<BookLevel>

  predicate Better(wantBid: bool, p: int, q: int) {
    if wantBid then p > q else p < q
  }

  ghost predicate Sorted(l: Ladder, wantBid: bool) {
    forall i, j :: 0 <= i < j < |l| ==> Better(wantBid, l[i].price, l[j].price)
  }

  function Take(l: Ladder, n: nat): Ladder {
    if |l| <= n then l else l[..n]
  }

  function Merged(existing: BookLevel, level: BookLevel): BookLevel {
    existing.(sizeAtoms := SatAdd(existing.sizeAtoms, level.sizeAtoms))
  }

  /** One level joins an unbounded ladder. */
  function AddLevel(l: Ladder, level: BookLevel, wantBid: bool): Ladder {
    if l == [] then [level]
    else if l[0].price == level.price then [Merged(l[0], level)] + l[1..]
    else if Better(wantBid, level.price, l[0].price) then [level] + l
    else [l[0]] + AddLevel(l[1..], level, wantBid)
  }

  /** The whole aggregated side of a book: every level of positive size, batched. */
  function WholeBook(input: seq<BookLevel>, wantBid: bool): Ladder {
    if input == [] then []
    else
      var init, last := input[..|input| - 1], input[|input| - 1];
      var l := WholeBook(init, wantBid);
      if last.sizeAtoms > 0 then AddLevel(l, last, wantBid) else l
  }

  /** Bids run from the highest price down and asks from the lowest up, and the first is the best quoted:
      no price with a positive size lies beyond it. */
  lemma BestFirst(input: seq<BookLevel>, wantBid: bool)
    requires forall x :: x in input ==> FitsI64(x.sizeAtoms)
    ensures var l := WholeBook(input, wantBid);
            && (forall i, j :: 0 <= i < j < |l| ==>
                  if wantBid then l[i].price > l[j].price else l[i].price < l[j].price)
            && (forall x :: x in input && x.sizeAtoms > 0 ==>
                  l != [] && if wantBid then x.price <= l[0].price else x.price >= l[0].price)
  {
    var l := WholeBook(input, wantBid);
    WholeBookIsAggregate(input, wantBid);
    forall x | x in input && x.sizeAtoms > 0
      ensures l != [] && if wantBid then x.price <= l[0].price else x.price >= l[0].price
    {
      TotalZeroIffUnquoted(input, x.price);
      var level := BookLevel(x.price, Quoted(input, x.price));
      assert level in l;
    }
  }

  // ------------------------------------------------------------- the in-place buffer

  /** The array picture of a ladder of at most four levels. */
  ghost function Slots(l: Ladder): (s: seq<Option<BookLevel>>)
    requires |l| <= BOOK_DEPTH_LEVELS
    ensures |s| == BOOK_DEPTH_LEVELS
  {
    seq(BOOK_DEPTH_LEVELS, i requires 0 <= i => if i < |l| then Some(l[i]) else None)
  }

  lemma SlotsOfInsert(l: Ladder, level: BookLevel, idx: nat)
    requires |l| <= BOOK_DEPTH_LEVELS && idx < BOOK_DEPTH_LEVELS && idx <= |l|
    ensures |Take(l[..idx] + [level] + l[idx..], BOOK_DEPTH_LEVELS)| <= BOOK_DEPTH_LEVELS
    ensures Slots(l)[..idx] + [Some(level)] + Slots(l)[idx..BOOK_DEPTH_LEVELS - 1]
            == Slots(Take(l[..idx] + [level] + l[idx..], BOOK_DEPTH_LEVELS))
  {
    var inserted := l[..idx] + [level] + l[idx..];
    var lhs := Slots(l)[..idx] + [Some(level)] + Slots(l)[idx..BOOK_DEPTH_LEVELS - 1];
    forall i | 0 <= i < BOOK_DEPTH_LEVELS
      ensures lhs[i] == Slots(Take(inserted, BOOK_DEPTH_LEVELS))[i]
    {
      if i > idx {
        assert lhs[i] == Slots(l)[i - 1];
        assert i < |inserted| ==> inserted[i] == l[i - 1];
      }
    }
  }

  class BookDepth {
    const levels: array<Option<BookLevel>>
    ghost var contents: Ladder

    ghost predicate Valid(wantBid: bool)
      reads this, levels
    {
      && levels.Length == BOOK_DEPTH_LEVELS
      && |contents| <= BOOK_DEPTH_LEVELS
      && levels[..] == Slots(contents)
      && Sorted(contents, wantBid)
    }

    constructor Empty()
      ensures fresh(levels) && contents == []
      ensures forall wantBid :: Valid(wantBid)
    {
      levels := new Option<BookLevel>[BOOK_DEPTH_LEVELS](i => None);
      contents := [];
      new;
      assert levels[..] == Slots([]);
    }

    /** Adds the size to an equal price, else shifts worse levels down in place and drops the fifth. */
    method Insert(level: BookLevel, wantBid: bool)
      requires Valid(wantBid)
      modifies this, levels
      ensures Valid(wantBid)
      ensures contents == Take(AddLevel(old(contents), level, wantBid), BOOK_DEPTH_LEVELS)
    {
      ghost var was := contents;
      var idx := 0;
      while idx < BOOK_DEPTH_LEVELS
        invariant 0 <= idx <= BOOK_DEPTH_LEVELS
        invariant unchanged(this) && unchanged(levels)
        invariant forall j :: 0 <= j < idx && j < |was| ==> was[j].price != level.price
      {
        if levels[idx].Some? && levels[idx].value.price == level.price {
          MergePoint(was, level, idx, wantBid);
          var existing := levels[idx].value;
          levels[idx] := Some(existing.(sizeAtoms := SatAdd(existing.sizeAtoms, level.sizeAtoms)));
          contents := was[idx := Merged(was[idx], level)];
          assert levels[..] == Slots(contents);
          return;
        }
        idx := idx + 1;
      }
      idx := 0;
      while idx < BOOK_DEPTH_LEVELS
        invariant 0 <= idx <= BOOK_DEPTH_LEVELS
        invariant unchanged(this) && unchanged(levels)
        invariant idx <= |was|
        invariant forall j :: 0 <= j < idx ==> Better(wantBid, was[j].price, level.price)
      {
        var shouldInsert := levels[idx].None? || Better(wantBid, level.price, levels[idx].value.price);
        if shouldInsert {
          InsertPoint(was, level, idx, wantBid);
          ShiftIn(idx, level);
          SlotsOfInsert(was, level, idx);
          contents := Take(was[..idx] + [level] + was[idx..], BOOK_DEPTH_LEVELS);
          return;
        }
        idx := idx + 1;
      }
      InsertPoint(was, level, |was|, wantBid);
    }

    /** Moves the slots from idx on one place down, the last one out, and fills the gap. */
    method ShiftIn(idx: nat, level: BookLevel)
      requires levels.Length == BOOK_DEPTH_LEVELS && idx < BOOK_DEPTH_LEVELS
      modifies levels
      ensures levels[..] == old(levels[..idx]) + [Some(level)] + old(levels[idx..BOOK_DEPTH_LEVELS - 1])
    {
      var shift := BOOK_DEPTH_LEVELS - 1;
      while shift > idx
        invariant idx <= shift < BOOK_DEPTH_LEVELS
        invariant forall i :: 0 <= i <= shift ==> levels[i] == old(levels[i])
        invariant forall i :: shift < i < BOOK_DEPTH_LEVELS ==> levels[i] == old(levels[i - 1])
      {
        levels[shift] := levels[shift - 1];
        shift := shift - 1;
      }
      levels[idx] := Some(level);
    }

    method BestPrice(ghost wantBid: bool) returns (r: Option<int>)
      requires Valid(wantBid)
      ensures r == if contents == [] then None else Some(contents[0].price)
    {
      r := match levels[0]
      case Some(level) => Some(level.price)
      case None => None;
    }

    /** Accumulates cost level by level until the target is reached. */
    method CutoffForBuyCents(targetCents: int, ghost wantBid: bool) returns (r: Option<int>)
      requires Valid(wantBid)
      ensures r == if targetCents <= 0 then None else Walk(contents, targetCents * 1_000_000, 0)
    {
      if targetCents <= 0 {
        return None;
      }
      var target := targetCents * 1_000_000;
      var total := 0;
      var i := 0;
      while i < BOOK_DEPTH_LEVELS
        invariant 0 <= i <= BOOK_DEPTH_LEVELS
        invariant i <= |contents| ==> Walk(contents, target, 0) == Walk(contents[i..], target, total)
        invariant i > |contents| ==> Walk(contents, target, 0) == None
      {
        if levels[i].Some? {
          var level := levels[i].value;
          total := total + level.price * level.sizeAtoms;
          if total >= target {
            return Some(level.price);
          }
          assert contents[i..][1..] == contents[i + 1..];
        }
        i := i + 1;
      }
      r := None;
    }
  }

  /** Streams the levels of positive size into an empty buffer. */
  method FromLevels(input: seq<BookLevel>, wantBid: bool) returns (d: BookDepth)
    ensures fresh(d) && fresh(d.levels) && d.Valid(wantBid)
    ensures d.contents == Take(WholeBook(input, wantBid), BOOK_DEPTH_LEVELS)
  {
    d := new BookDepth.Empty();
    for i := 0 to |input|
      invariant fresh(d) && fresh(d.levels) && d.Valid(wantBid)
      invariant d.contents == Take(WholeBook(input[..i], wantBid), BOOK_DEPTH_LEVELS)
    {
      assert input[..i + 1][..i] == input[..i];
      if input[i].sizeAtoms > 0 {
        WholeBookSorted(input[..i], wantBid);
        TruncationCommutes(WholeBook(input[..i], wantBid), input[i], wantBid, BOOK_DEPTH_LEVELS);
        d.Insert(input[i], wantBid);
      }
    }
    assert input[..|input|] == input;
  }

  // ----------------------------------------------------- ladder insertion, pointwise

  lemma {:induction false} MergePoint(l: Ladder, level: BookLevel, idx: nat, wantBid: bool)
    requires Sorted(l, wantBid) && idx < |l| && l[idx].price == level.price
    ensures AddLevel(l, level, wantBid) == l[idx := Merged(l[idx], level)]
  {
    if idx > 0 {
      assert Better(wantBid, l[0].price, l[idx].price);
      MergePoint(l[1..], level, idx - 1, wantBid);
    }
  }

  lemma {:induction false} InsertPoint(l: Ladder, level: BookLevel, idx: nat, wantBid: bool)
    requires Sorted(l, wantBid) && idx <= |l|
    requires forall j :: 0 <= j < idx ==> Better(wantBid, l[j].price, level.price)
    requires idx < |l| ==> Better(wantBid, level.price, l[idx].price)
    ensures AddLevel(l, level, wantBid) == l[..idx] + [level] + l[idx..]
    ensures Sorted(AddLevel(l, level, wantBid), wantBid)
  {
    InsertAt(l, level, idx, wantBid);
    InsertedSorted(l, level, idx, wantBid);
  }

  lemma {:induction false} InsertAt(l: Ladder, level: BookLevel, idx: nat, wantBid: bool)
    requires idx <= |l|
    requires forall j :: 0 <= j < idx ==> Better(wantBid, l[j].price, level.price)
    requires idx < |l| ==> Better(wantBid, level.price, l[idx].price)
    ensures AddLevel(l, level, wantBid) == l[..idx] + [level] + l[idx..]
  {
    if idx > 0 {
      InsertAt(l[1..], level, idx - 1, wantBid);
      assert l[..idx] == [l[0]] + l[1..][..idx - 1];
    }
  }

  lemma InsertedSorted(l: Ladder, level: BookLevel, idx: nat, wantBid: bool)
    requires Sorted(l, wantBid) && idx <= |l|
    requires forall j :: 0 <= j < idx ==> Better(wantBid, l[j].price, level.price)
    requires idx < |l| ==> Better(wantBid, level.price, l[idx].price)
    ensures Sorted(l[..idx] + [level] + l[idx..], wantBid)
  {
    assert forall j :: idx <= j < |l| ==> Better(wantBid, level.price, l[j].price);
  }

  /** Where a level goes: onto its own price, or at the one gap between better and worse. */
  lemma {:induction false} FindPoint(l: Ladder, level: BookLevel, wantBid: bool) returns (idx: nat, found: bool)
    requires Sorted(l, wantBid)
    ensures idx <= |l| && (found ==> idx < |l| && l[idx].price == level.price)
    ensures !found ==> (forall j :: 0 <= j < idx ==> Better(wantBid, l[j].price, level.price))
                       && (idx < |l| ==> Better(wantBid, level.price, l[idx].price))
  {
    if l == [] {
      idx, found := 0, false;
    } else if l[0].price == level.price {
      idx, found := 0, true;
    } else if Better(wantBid, level.price, l[0].price) {
      idx, found := 0, false;
    } else {
      idx, found := FindPoint(l[1..], level, wantBid);
      idx := idx + 1;
    }
  }

  lemma AddLevelSorted(l: Ladder, level: BookLevel, wantBid: bool)
    requires Sorted(l, wantBid)
    ensures Sorted(AddLevel(l, level, wantBid), wantBid)
  {
    var idx, found := FindPoint(l, level, wantBid);
    if found {
      MergePoint(l, level, idx, wantBid);
    } else {
      InsertPoint(l, level, idx, wantBid);
    }
  }

  lemma {:induction false} WholeBookSorted(input: seq<BookLevel>, wantBid: bool)
    ensures Sorted(WholeBook(input, wantBid), wantBid)
  {
    if input != [] {
      var init, last := input[..|input| - 1], input[|input| - 1];
      WholeBookSorted(init, wantBid);
      if last.sizeAtoms > 0 {
        AddLevelSorted(WholeBook(init, wantBid), last, wantBid);
      }
    }
  }

  lemma TakeOfInsert(l: Ladder, level: BookLevel, idx: nat, n: nat)
    requires idx <= |l| && idx < n
    ensures Take(Take(l, n)[..idx] + [level] + Take(l, n)[idx..], n) == Take(l[..idx] + [level] + l[idx..], n)
  {
    var t := Take(l, n);
    var a, b := t[..idx] + [level] + t[idx..], l[..idx] + [level] + l[idx..];
    if |l| > n {
      assert a[..n] == b[..n];
    }
  }

  lemma TakeOfUpdate(l: Ladder, x: BookLevel, idx: nat, n: nat)
    requires idx < |l|
    ensures idx < n ==> Take(l, n)[idx := x] == Take(l[idx := x], n)
    ensures idx >= n ==> Take(l[idx := x], n) == Take(l, n)
  {
  }

  /** Forgetting all but the n best before adding a level loses nothing of the n best after. */
  lemma TruncationCommutes(l: Ladder, level: BookLevel, wantBid: bool, n: nat)
    requires Sorted(l, wantBid)
    ensures Take(AddLevel(Take(l, n), level, wantBid), n) == Take(AddLevel(l, level, wantBid), n)
  {
    var idx, found := FindPoint(l, level, wantBid);
    var t := Take(l, n);
    if found {
      MergePoint(l, level, idx, wantBid);
      TakeOfUpdate(l, Merged(l[idx], level), idx, n);
      if idx < n {
        MergePoint(t, level, idx, wantBid);
        TakeOfUpdate(l, Merged(l[idx], level), idx, n);
      } else {
        InsertPoint(t, level, n, wantBid);
        assert (t[..n] + [level] + t[n..])[..n] == t;
      }
    } else {
      InsertPoint(l, level, idx, wantBid);
      if idx < n {
        InsertPoint(t, level, idx, wantBid);
        TakeOfInsert(l, level, idx, n);
      } else {
        InsertPoint(t, level, n, wantBid);
        assert (t[..n] + [level] + t[n..])[..n] == t;
        assert (l[..idx] + [level] + l[idx..])[..n] == l[..n];
      }
    }
  }

  // -------------------------------------------------- the whole book is the aggregate

  /** Sum of all positive sizes quoted at a price. */
  function TotalAt(input: seq<BookLevel>, price: int): nat {
    if input == [] then 0
    else
      var last := input[|input| - 1];
      TotalAt(input[..|input| - 1], price)
      + if last.price == price && last.sizeAtoms > 0 then last.sizeAtoms else 0
  }

  /** Sizes saturate at 64 bits. */
  ghost function Quoted(input: seq<BookLevel>, price: int): nat {
    Min(TotalAt(input, price), I64_MAX)
  }

  lemma AddLevelMembers(l: Ladder, level: BookLevel, wantBid: bool)
    requires Sorted(l, wantBid)
    ensures forall x :: x in AddLevel(l, level, wantBid) && x.price != level.price ==> x in l
    ensures forall x :: x in l && x.price != level.price ==> x in AddLevel(l, level, wantBid)
    ensures forall x :: x in AddLevel(l, level, wantBid) && x.price == level.price
                        ==> (x == level && (forall y :: y in l ==> y.price != level.price))
                            || (exists y :: y in l && y.price == level.price && x == Merged(y, level))
    ensures exists x :: x in AddLevel(l, level, wantBid) && x.price == level.price
  {
    var idx, found := FindPoint(l, level, wantBid);
    var l' := AddLevel(l, level, wantBid);
    AddLevelSorted(l, level, wantBid);
    if found {
      MergePoint(l, level, idx, wantBid);
      assert l'[idx] in l' && l[idx] in l;
      forall x | x in l && x.price != level.price
        ensures x in l'
      {
        var i :| 0 <= i < |l| && l[i] == x;
        assert l'[i] == x;
      }
    } else {
      InsertPoint(l, level, idx, wantBid);
      assert l'[idx] == level;
      assert forall x :: x in l ==> x in l[..idx] || x in l[idx..];
      forall y | y in l
        ensures y.price != level.price
      {
        var i :| 0 <= i < |l| && l[i] == y;
        if i > idx {
          assert Better(wantBid, l[idx].price, l[i].price);
        }
      }
    }
  }

  lemma {:induction false} TotalZeroIffUnquoted(input: seq<BookLevel>, price: int)
    ensures TotalAt(input, price) > 0 <==> exists x :: x in input && x.price == price && x.sizeAtoms > 0
  {
    if input != [] {
      var init, last := input[..|input| - 1], input[|input| - 1];
      TotalZeroIffUnquoted(init, price);
      assert input == init + [last];
      if TotalAt(init, price) > 0 {
        var x :| x in init && x.price == price && x.sizeAtoms > 0;
        assert x in input;
      }
      if last.price == price && last.sizeAtoms > 0 {
        assert last in input;
      }
    }
  }

  /** Batch meaning of the whole book: exactly the quoted prices, each once, in strict order,
      with the sum of all its positive sizes. */
  lemma {:induction false} WholeBookIsAggregate(input: seq<BookLevel>, wantBid: bool)
    requires forall x :: x in input ==> FitsI64(x.sizeAtoms)
    ensures Sorted(WholeBook(input, wantBid), wantBid)
    ensures forall x :: x in WholeBook(input, wantBid)
                        <==> TotalAt(input, x.price) > 0 && x.sizeAtoms == Quoted(input, x.price)
  {
    WholeBookSorted(input, wantBid);
    if input != [] {
      var init, last := input[..|input| - 1], input[|input| - 1];
      assert last in input && forall x :: x in init ==> x in input;
      WholeBookIsAggregate(init, wantBid);
      if last.sizeAtoms > 0 {
        var l, l' := WholeBook(init, wantBid), WholeBook(input, wantBid);
        AddLevelMembers(l, last, wantBid);
        var x0 :| x0 in l' && x0.price == last.price;
        assert x0.sizeAtoms == Quoted(input, last.price) by {
          if TotalAt(init, last.price) > 0 {
            var y := BookLevel(last.price, Quoted(init, last.price));
            assert y in l;
          }
        }
        forall x
          ensures x in l' <==> TotalAt(input, x.price) > 0 && x.sizeAtoms == Quoted(input, x.price)
        {
          if x.price == last.price && x in l' {
            SortedDistinct(l', x, x0, wantBid);
          }
          if x.price == last.price && x.sizeAtoms == x0.sizeAtoms {
            assert x == x0;
          }
        }
      }
    }
  }

  lemma SortedDistinct(l: Ladder, x: BookLevel, y: BookLevel, wantBid: bool)
    requires Sorted(l, wantBid) && x in l && y in l && x.price == y.price
    ensures x == y
  {
    var i :| 0 <= i < |l| && l[i] == x;
    var j :| 0 <= j < |l| && l[j] == y;
    assert i == j;
  }

  /** The streamed buffer is the four best distinct prices of the whole input, each with its full
      total; anything quoted but absent is worse than all four. */
  lemma TopFourOfWholeInput(input: seq<BookLevel>, wantBid: bool, c: Ladder)
    requires forall x :: x in input ==> FitsI64(x.sizeAtoms)
    requires c == Take(WholeBook(input, wantBid), BOOK_DEPTH_LEVELS)
    ensures Sorted(c, wantBid) && |c| <= BOOK_DEPTH_LEVELS
    ensures forall x :: x in c ==> TotalAt(input, x.price) > 0 && x.sizeAtoms == Quoted(input, x.price)
    ensures forall p :: TotalAt(input, p) > 0 && (forall x :: x in c ==> x.price != p)
                        ==> |c| == BOOK_DEPTH_LEVELS && forall x :: x in c ==> Better(wantBid, x.price, p)
  {
    WholeBookIsAggregate(input, wantBid);
    var l := WholeBook(input, wantBid);
    assert forall x :: x in c ==> x in l;
    forall p | TotalAt(input, p) > 0 && (forall x :: x in c ==> x.price != p)
      ensures |c| == BOOK_DEPTH_LEVELS && forall x :: x in c ==> Better(wantBid, x.price, p)
    {
      LeftOutIsWorse(l, BookLevel(p, Quoted(input, p)), wantBid, c);
    }
  }

  /** A level of the ladder that is not among its best is worse than all of them. */
  lemma LeftOutIsWorse(l: Ladder, lost: BookLevel, wantBid: bool, c: Ladder)
    requires Sorted(l, wantBid) && lost in l && lost !in c && c == Take(l, BOOK_DEPTH_LEVELS)
    ensures |c| == BOOK_DEPTH_LEVELS && forall x :: x in c ==> Better(wantBid, x.price, lost.price)
  {
    var k :| 0 <= k < |l| && l[k] == lost;
    assert c == l[..|c|];
    assert k >= |c|;
  }

  lemma NonEmptyBoth(a: Ladder, b: Ladder)
    requires a != [] && forall x :: x in a ==> x in b
    ensures b != []
  {
    assert a[0] in b;
  }

  lemma {:induction false} SortedUnique(a: Ladder, b: Ladder, wantBid: bool)
    requires Sorted(a, wantBid) && Sorted(b, wantBid)
    requires forall x :: x in a <==> x in b
    ensures a == b
  {
    if b != [] {
      NonEmptyBoth(b, a);
    }
    if a != [] {
      NonEmptyBoth(a, b);
      assert a[0] in b;
      assert b[0] in a;
      HeadBest(a, b[0], wantBid);
      HeadBest(b, a[0], wantBid);
      forall x
        ensures x in a[1..] <==> x in b[1..]
      {
        TailMember(a, x, wantBid);
        TailMember(b, x, wantBid);
      }
      SortedUnique(a[1..], b[1..], wantBid);
    }
  }

  lemma HeadBest(l: Ladder, x: BookLevel, wantBid: bool)
    requires Sorted(l, wantBid) && x in l
    ensures x == l[0] || Better(wantBid, l[0].price, x.price)
  {
  }

  lemma TailMember(a: Ladder, x: BookLevel, wantBid: bool)
    requires Sorted(a, wantBid) && a != []
    ensures x in a[1..] <==> x in a && x != a[0]
  {
    if x in a[1..] {
      var i :| 0 <= i < |a[1..]| && a[1..][i] == x;
      assert a[i + 1] == x;
    }
  }

  lemma {:induction false} TotalAtRemove(input: seq<BookLevel>, i: nat, price: int)
    requires i < |input|
    ensures TotalAt(input, price) == TotalAt(input[..i] + input[i + 1..], price)
                                     + if input[i].price == price && input[i].sizeAtoms > 0 then input[i].sizeAtoms else 0
  {
    var n := |input| - 1;
    var init, rest := input[..n], input[..i] + input[i + 1..];
    if i < n {
      TotalAtRemove(init, i, price);
      assert rest[..n - 1] == init[..i] + init[i + 1..];
      assert rest[n - 1] == input[n];
    } else {
      assert rest == init;
    }
  }

  /** An element of a sequence taken out, as multisets see it. */
  lemma TakeOut(b: seq<BookLevel>, x: BookLevel) returns (i: nat)
    requires x in multiset(b)
    ensures i < |b| && b[i] == x && multiset(b[..i] + b[i + 1..]) == multiset(b) - multiset{x}
  {
    assert x in b;
    i :| 0 <= i < |b| && b[i] == x;
    assert b == b[..i] + [x] + b[i + 1..];
  }

  lemma LastOut(a: seq<BookLevel>)
    requires a != []
    ensures a[|a| - 1] in multiset(a)
    ensures multiset(a[..|a| - 1]) == multiset(a) - multiset{a[|a| - 1]}
  {
    assert a == a[..|a| - 1] + [a[|a| - 1]];
  }

  lemma {:induction false} TotalAtPermutes(a: seq<BookLevel>, b: seq<BookLevel>, price: int)
    requires multiset(a) == multiset(b)
    ensures TotalAt(a, price) == TotalAt(b, price)
  {
    if a == [] {
      assert |b| == |multiset(b)| == 0;
    } else {
      var init, last := a[..|a| - 1], a[|a| - 1];
      LastOut(a);
      var i := TakeOut(b, last);
      TotalAtPermutes(init, b[..i] + b[i + 1..], price);
      TotalAtRemove(b, i, price);
    }
  }

  /** The order in which levels arrive is irrelevant to the book, hence to its four best. */
  lemma ArrivalOrderIrrelevant(a: seq<BookLevel>, b: seq<BookLevel>, wantBid: bool)
    requires multiset(a) == multiset(b)
    requires forall x :: x in a ==> FitsI64(x.sizeAtoms)
    ensures WholeBook(a, wantBid) == WholeBook(b, wantBid)
  {
    forall x | x in b
      ensures x in a
    {
      assert x in multiset(b);
    }
    WholeBookIsAggregate(a, wantBid);
    WholeBookIsAggregate(b, wantBid);
    forall x: BookLevel
      ensures x in WholeBook(a, wantBid) <==> x in WholeBook(b, wantBid)
    {
      TotalAtPermutes(a, b, x.price);
    }
    SortedUnique(WholeBook(a, wantBid), WholeBook(b, wantBid), wantBid);
  }

  /** Adding a level moves no price up the ladder. */
  lemma PriceSinks(l: Ladder, level: BookLevel, wantBid: bool, i: nat) returns (j: nat)
    requires Sorted(l, wantBid) && i < |l|
    ensures i <= j < |AddLevel(l, level, wantBid)| && AddLevel(l, level, wantBid)[j].price == l[i].price
  {
    var idx, found := FindPoint(l, level, wantBid);
    if found {
      MergePoint(l, level, idx, wantBid);
      j := i;
    } else {
      InsertPoint(l, level, idx, wantBid);
      j := if i < idx then i else i + 1;
    }
  }

  lemma {:induction false} PriceSinksOverInput(input: seq<BookLevel>, k: nat, wantBid: bool, i: nat) returns (j: nat)
    requires k <= |input| && i < |WholeBook(input[..k], wantBid)|
    ensures i <= j < |WholeBook(input, wantBid)|
    ensures WholeBook(input, wantBid)[j].price == WholeBook(input[..k], wantBid)[i].price
    decreases |input| - k
  {
    if k == |input| {
      assert input[..k] == input;
      j := i;
    } else {
      assert input[..k + 1][..k] == input[..k];
      WholeBookSorted(input[..k], wantBid);
      var i' := i;
      if input[k].sizeAtoms > 0 {
        i' := PriceSinks(WholeBook(input[..k], wantBid), input[k], wantBid, i);
      }
      j := PriceSinksOverInput(input, k + 1, wantBid, i');
    }
  }

  /** A price never moves up the ladder, so once pushed out of the four best it stays out. */
  lemma EvictedNeverReturns(input: seq<BookLevel>, k: nat, wantBid: bool, i: nat)
    requires k <= |input| && BOOK_DEPTH_LEVELS <= i < |WholeBook(input[..k], wantBid)|
    ensures forall x :: x in Take(WholeBook(input, wantBid), BOOK_DEPTH_LEVELS)
                        ==> x.price != WholeBook(input[..k], wantBid)[i].price
  {
    WholeBookSorted(input, wantBid);
    var j := PriceSinksOverInput(input, k, wantBid, i);
    var l := WholeBook(input, wantBid);
    forall x | x in Take(l, BOOK_DEPTH_LEVELS)
      ensures x.price != l[j].price
    {
      var m :| 0 <= m < BOOK_DEPTH_LEVELS && m < |l| && l[m] == x;
      assert Better(wantBid, l[m].price, l[j].price);
    }
  }

  // ------------------------------------------------------------------- the BUY cutoff

  /** First price at which the accumulated cost reaches the target. */
  function Walk(l: Ladder, target: int, acc: int): Option<int> {
    if l == [] then None
    else
      var acc' := acc + l[0].price * l[0].sizeAtoms;
      if acc' >= target then Some(l[0].price) else Walk(l[1..], target, acc')
  }

  /** A cutoff found in the four best levels is the cutoff of the whole book. */
  lemma {:induction false} CutoffOfWholeBook(l: Ladder, n: nat, target: int, acc: int)
    ensures Walk(Take(l, n), target, acc).Some? ==> Walk(l, target, acc) == Walk(Take(l, n), target, acc)
  {
    if l != [] && n > 0 {
      assert Take(l, n)[1..] == Take(l[1..], n - 1);
      CutoffOfWholeBook(l[1..], n - 1, target, acc + l[0].price * l[0].sizeAtoms);
    }
  }

  /** Cost of every raw quote strictly cheaper than a price. */
  function CostBelow(input: seq<BookLevel>, price: int): int {
    if input == [] then 0
    else
      var last := input[|input| - 1];
      CostBelow(input[..|input| - 1], price)
      + if last.price < price && last.sizeAtoms > 0 then last.price * last.sizeAtoms else 0
  }

  /** The same over a ladder. */
  function LadderCostBelow(l: Ladder, price: int): int {
    if l == [] then 0
    else (if l[0].price < price then l[0].price * l[0].sizeAtoms else 0) + LadderCostBelow(l[1..], price)
  }

  lemma {:induction false} AddLevelCost(l: Ladder, level: BookLevel, price: int)
    requires forall x :: x in l && x.price == level.price ==> FitsI64(x.sizeAtoms + level.sizeAtoms)
    ensures LadderCostBelow(AddLevel(l, level, false), price)
            == LadderCostBelow(l, price) + if level.price < price then level.price * level.sizeAtoms else 0
  {
    if l != [] {
      var l' := AddLevel(l, level, false);
      if l[0].price == level.price {
        assert l[0] in l;
        assert l'[1..] == l[1..];
        assert l[0].price * (l[0].sizeAtoms + level.sizeAtoms)
            == l[0].price * l[0].sizeAtoms + l[0].price * level.sizeAtoms;
      } else if level.price < l[0].price {
        assert l'[1..] == l;
      } else {
        AddLevelCost(l[1..], level, price);
        assert l'[1..] == AddLevel(l[1..], level, false);
      }
    }
  }

  /** No total leaves 64 bits. */
  ghost predicate Unsaturated(input: seq<BookLevel>) {
    && (forall x :: x in input ==> FitsI64(x.sizeAtoms))
    && (forall p :: TotalAt(input, p) <= I64_MAX)
  }

  lemma UnsaturatedPrefix(input: seq<BookLevel>)
    requires input != [] && Unsaturated(input)
    ensures Unsaturated(input[..|input| - 1])
  {
    var init := input[..|input| - 1];
    forall p
      ensures TotalAt(init, p) <= I64_MAX
    {
      assert TotalAt(init, p) <= TotalAt(input, p);
    }
  }

  /** Aggregation conserves cost: below any price the ladder costs what the raw quotes cost. */
  lemma {:induction false} AggregationConservesCost(input: seq<BookLevel>, price: int)
    requires Unsaturated(input)
    ensures LadderCostBelow(WholeBook(input, false), price) == CostBelow(input, price)
  {
    if input != [] {
      var init, last := input[..|input| - 1], input[|input| - 1];
      UnsaturatedPrefix(input);
      AggregationConservesCost(init, price);
      if last.sizeAtoms > 0 {
        var l := WholeBook(init, false);
        WholeBookIsAggregate(init, false);
        assert TotalAt(input, last.price) == TotalAt(init, last.price) + last.sizeAtoms <= I64_MAX;
        AddLevelCost(l, last, price);
      }
    }
  }

  /** Walking a sorted ask ladder stops at the price where cost below is under target and cost
      up to it reaches the target. */
  lemma {:induction false} WalkStops(l: Ladder, target: int, acc: int)
    requires Sorted(l, false) && acc < target
    requires forall x :: x in l ==> x.price > 0 && x.sizeAtoms > 0
    ensures Walk(l, target, acc).Some? ==>
              var p := Walk(l, target, acc).value;
              acc + LadderCostBelow(l, p) < target <= acc + LadderCostBelow(l, p + 1)
    ensures Walk(l, target, acc).None? ==> forall p :: acc + LadderCostBelow(l, p) < target
  {
    if l != [] {
      var acc' := acc + l[0].price * l[0].sizeAtoms;
      assert l[0] in l;
      forall p | p <= l[0].price
        ensures LadderCostBelow(l, p) == 0
      {
        NothingCheaper(l, p);
      }
      if acc' < target {
        assert forall x :: x in l[1..] ==> x in l;
        WalkStops(l[1..], target, acc');
        if Walk(l[1..], target, acc').Some? {
          var p := Walk(l[1..], target, acc').value;
          WalkReturnsPrice(l[1..], target, acc');
          var i :| 0 <= i < |l[1..]| && l[1..][i].price == p;
          assert l[i + 1].price == p;
        } else {
          forall p
            ensures acc + LadderCostBelow(l, p) < target
          {
            assert acc' + LadderCostBelow(l[1..], p) < target;
          }
        }
      } else {
        var p := l[0].price;
        forall x | x in l[1..]
          ensures x.price >= p + 1
        {
          var i :| 0 <= i < |l[1..]| && l[1..][i] == x;
          assert Better(false, l[0].price, l[i + 1].price);
        }
        NothingCheaper(l[1..], p + 1);
      }
    }
  }

  lemma {:induction false} NothingCheaper(l: Ladder, p: int)
    requires Sorted(l, false) && (l != [] ==> p <= l[0].price)
    ensures LadderCostBelow(l, p) == 0
  {
    if l != [] {
      NothingCheaper(l[1..], p);
    }
  }

  lemma {:induction false} WalkReturnsPrice(l: Ladder, target: int, acc: int)
    requires Walk(l, target, acc).Some?
    ensures exists i :: 0 <= i < |l| && l[i].price == Walk(l, target, acc).value
  {
    if acc + l[0].price * l[0].sizeAtoms >= target {
      assert l[0].price == Walk(l, target, acc).value;
    } else {
      var acc' := acc + l[0].price * l[0].sizeAtoms;
      WalkReturnsPrice(l[1..], target, acc');
      var i :| 0 <= i < |l[1..]| && l[1..][i].price == Walk(l[1..], target, acc').value;
      assert l[i + 1].price == Walk(l, target, acc).value;
    }
  }

  /** The buffer's cutoff against the raw quotes: everything strictly cheaper costs less than the
      target, and everything up to the cutoff reaches it. */
  lemma CutoffAgainstRawQuotes(input: seq<BookLevel>, targetCents: int, c: Ladder)
    requires Unsaturated(input) && targetCents > 0
    requires forall x :: x in input ==> x.price > 0
    requires c == Take(WholeBook(input, false), BOOK_DEPTH_LEVELS)
    requires Walk(c, targetCents * 1_000_000, 0).Some?
    ensures var p := Walk(c, targetCents * 1_000_000, 0).value;
            && Walk(WholeBook(input, false), targetCents * 1_000_000, 0) == Some(p)
            && TotalAt(input, p) > 0
            && CostBelow(input, p) < targetCents * 1_000_000 <= CostBelow(input, p + 1)
  {
    var l, target := WholeBook(input, false), targetCents * 1_000_000;
    CutoffOfWholeBook(l, BOOK_DEPTH_LEVELS, target, 0);
    WholeBookPositive(input);
    WholeBookIsAggregate(input, false);
    WalkStops(l, target, 0);
    var p := Walk(l, target, 0).value;
    CutoffIsQuoted(input, target);
    AggregationConservesCost(input, p);
    AggregationConservesCost(input, p + 1);
  }

  lemma WholeBookPositive(input: seq<BookLevel>)
    requires Unsaturated(input) && forall x :: x in input ==> x.price > 0
    ensures forall x :: x in WholeBook(input, false) ==> x.price > 0 && x.sizeAtoms > 0 && TotalAt(input, x.price) > 0
  {
    WholeBookIsAggregate(input, false);
    forall x | x in WholeBook(input, false)
      ensures x.price > 0 && x.sizeAtoms > 0 && TotalAt(input, x.price) > 0
    {
      TotalZeroIffUnquoted(input, x.price);
    }
  }

  lemma CutoffIsQuoted(input: seq<BookLevel>, target: int)
    requires Unsaturated(input) && forall x :: x in input ==> x.price > 0
    requires Walk(WholeBook(input, false), target, 0).Some?
    ensures TotalAt(input, Walk(WholeBook(input, false), target, 0).value) > 0
  {
    var l := WholeBook(input, false);
    WholeBookPositive(input);
    WalkReturnsPrice(l, target, 0);
    var i :| 0 <= i < |l| && l[i].price == Walk(l, target, 0).value;
    assert l[i] in l;
  }

  /** A larger target never gives a cheaper cutoff, and never one where a smaller has none. */
  lemma {:induction false} CutoffMonotone(l: Ladder, t1: int, t2: int, acc: int)
    requires Sorted(l, false) && t1 <= t2
    ensures Walk(l, t2, acc).Some? ==> Walk(l, t1, acc).Some? && Walk(l, t1, acc).value <= Walk(l, t2, acc).value
  {
    if l != [] {
      var acc' := acc + l[0].price * l[0].sizeAtoms;
      if acc' < t1 {
        CutoffMonotone(l[1..], t1, t2, acc');
      } else if acc' < t2 && Walk(l[1..], t2, acc').Some? {
        WalkReturnsPrice(l[1..], t2, acc');
        var i :| 0 <= i < |l[1..]| && l[1..][i].price == Walk(l[1..], t2, acc').value;
        assert Better(false, l[0].price, l[i + 1].price);
      }
    }
  }

  /** What the whole ladder costs. */
  function DepthCost(l: Ladder): int {
    if l == [] then 0 else l[0].price * l[0].sizeAtoms + DepthCost(l[1..])
  }

  ghost predicate Positive(l: Ladder) {
    forall i :: 0 <= i < |l| ==> l[i].price > 0 && l[i].sizeAtoms > 0
  }

  lemma LevelCosts(level: BookLevel)
    requires level.price > 0 && level.sizeAtoms > 0
    ensures level.price * level.sizeAtoms > 0
  {
  }

  /** The walk finds a price exactly when the ladder costs enough. */
  lemma {:induction false} WalkFindsExactlyWhen(l: Ladder, target: int, acc: int)
    requires Positive(l) && acc < target
    ensures Walk(l, target, acc).Some? <==> acc + DepthCost(l) >= target
    ensures DepthCost(l) >= 0
  {
    if l != [] {
      LevelCosts(l[0]);
      var acc' := acc + l[0].price * l[0].sizeAtoms;
      if acc' < target {
        WalkFindsExactlyWhen(l[1..], target, acc');
      } else {
        CostsNothingLess(l[1..]);
      }
    }
  }

  lemma {:induction false} CostsNothingLess(l: Ladder)
    requires Positive(l)
    ensures DepthCost(l) >= 0
  {
    if l != [] {
      LevelCosts(l[0]);
      CostsNothingLess(l[1..]);
    }
  }

  /** It stops at the best price exactly when the best level alone costs enough. */
  lemma WalkStopsAtBestExactlyWhen(l: Ladder, target: int)
    requires Sorted(l, false) && l != [] && Walk(l, target, 0).Some?
    ensures l[0].price <= Walk(l, target, 0).value
    ensures Walk(l, target, 0).value == l[0].price <==> l[0].price * l[0].sizeAtoms >= target
  {
    var cost := l[0].price * l[0].sizeAtoms;
    if cost < target {
      WalkReturnsPrice(l[1..], target, cost);
      var i :| 0 <= i < |l[1..]| && l[1..][i].price == Walk(l[1..], target, cost).value;
      assert Better(false, l[0].price, l[i + 1].price);
    }
  }

  // --------------------------------------------------------------------- best price

  /** The separate best-price scan over raw levels. */
  method BestBookPrice(input: seq<BookLevel>, wantBid: bool) returns (best: Option<int>)
    ensures best.None? <==> forall x :: x in input ==> x.sizeAtoms <= 0
    ensures best.Some? ==> TotalAt(input, best.value) > 0
    ensures best.Some? ==> forall x :: x in input && x.sizeAtoms > 0 ==> !Better(wantBid, x.price, best.value)
  {
    best := None;
    for i := 0 to |input|
      invariant best.None? <==> forall j :: 0 <= j < i ==> input[j].sizeAtoms <= 0
      invariant best.Some? ==> exists j :: 0 <= j < i && input[j].price == best.value && input[j].sizeAtoms > 0
      invariant best.Some? ==>
                  forall j :: 0 <= j < i && input[j].sizeAtoms > 0 ==> !Better(wantBid, input[j].price, best.value)
    {
      if input[i].sizeAtoms > 0 {
        if best.None? || Better(wantBid, input[i].price, best.value) {
          best := Some(input[i].price);
        }
      }
    }
    if best.Some? {
      TotalZeroIffUnquoted(input, best.value);
    }
  }

  /** The buffer's best level is the scan's answer. */
  lemma BestPricesAgree(input: seq<BookLevel>, wantBid: bool, best: Option<int>)
    requires forall x :: x in input ==> FitsI64(x.sizeAtoms)
    requires best.None? <==> forall x :: x in input ==> x.sizeAtoms <= 0
    requires best.Some? ==> TotalAt(input, best.value) > 0
    requires best.Some? ==> forall x :: x in input && x.sizeAtoms > 0 ==> !Better(wantBid, x.price, best.value)
    ensures var c := Take(WholeBook(input, wantBid), BOOK_DEPTH_LEVELS);
            best == if c == [] then None else Some(c[0].price)
  {
    var l := WholeBook(input, wantBid);
    WholeBookIsAggregate(input, wantBid);
    if l != [] {
      assert l[0] in l;
      TotalZeroIffUnquoted(input, l[0].price);
    }
    if best.Some? {
      var x := BookLevel(best.value, Quoted(input, best.value));
      assert x in l;
      HeadBest(l, x, wantBid);
    }
  }
}
