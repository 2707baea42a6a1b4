/** The shopping cart: a sequence holding one entry per unit. Units are
    appended in batches, removed newest first, grouped per name in the order
    the names were first seen, and priced by summing unit prices. */
module Cart {

  import opened Seqs
  import opened Text
  import opened Catalog

  function Min(a: int, b: int): int {
    if a <= b then a else b
  }

  /* ---------------------------------------------------------------- adding */

  /** `n` units of `p`. The append loop of addToCart runs while its counter
      is below `n`, so a zero or negative `n` yields no units. */
  function Copies(p: Product, n: int): seq<Product> {
    seq(if n <= 0 then 0 else n, _ => p)
  }

  /** Two batches of the same product make one batch of their combined size. */
  lemma CopiesJoin(p: Product, a: nat, b: nat)
    ensures Copies(p, a) + Copies(p, b) == Copies(p, a + b)
  {
  }

  /* -------------------------------------------------------------- removing */

  /** Units that are not named like `name`. */
  function Others(name: string): Product -> bool {
    (p: Product) => !SameName(p.name, name)
  }

  /** Number of units in `cart` named like `name`, ignoring case. */
  function Count(cart: seq<Product>, name: string): nat {
    |Filter(cart, NamedLike(name))|
  }

  /** The cart left after a removal, and how many units were taken out. */
  datatype Removal = Removal(cart: seq<Product>, count: nat)

  /** The specification of removeFromCart: some split point `k` leaves
      `cart[..k]` untouched, every unit named like `name` after it is taken
      out (the others stay, in order), and there are exactly `removed` of
      them. So the units removed are the `removed` newest matching ones. */
  ghost predicate RemovesNewest(cart: seq<Product>, name: string, kept: seq<Product>, removed: nat) {
    exists k :: SplitAt(cart, name, kept, removed, k)
  }

  /** `RemovesNewest` with its split point `k` named. */
  ghost predicate SplitAt(cart: seq<Product>, name: string, kept: seq<Product>, removed: nat, k: int) {
    0 <= k <= |cart| && kept == cart[..k] + Filter(cart[k..], Others(name)) && Count(cart[k..], name) == removed
  }

  /** removeFromCart as a function: scan from the newest unit towards the
      oldest, taking out matching units until `quantity` have gone. */
  function RemoveNewest(cart: seq<Product>, name: string, quantity: int): (r: Removal)
    ensures r.count == if quantity <= 0 then 0 else Min(quantity, Count(cart, name))
    ensures |r.cart| == |cart| - r.count
    decreases |cart|
  {
    if |cart| == 0 || quantity <= 0 then Removal(cart, 0)
    else
      var init, last := cart[..|cart| - 1], cart[|cart| - 1];
      assert cart == init + [last];
      FilterAppend(init, [last], NamedLike(name));
      if SameName(last.name, name) then
        var rest := RemoveNewest(init, name, quantity - 1);
        Removal(rest.cart, rest.count + 1)
      else
        var rest := RemoveNewest(init, name, quantity);
        Removal(rest.cart + [last], rest.count)
  }

  /** The functional removal meets the newest-first specification. */
  lemma {:induction false} RemoveNewestTakesNewest(cart: seq<Product>, name: string, quantity: int)
    ensures RemovesNewest(cart, name, RemoveNewest(cart, name, quantity).cart, RemoveNewest(cart, name, quantity).count)
    decreases |cart|
  {
    var r := RemoveNewest(cart, name, quantity);
    if |cart| == 0 || quantity <= 0 {
      assert cart[|cart|..] == [];
      assert SplitAt(cart, name, r.cart, r.count, |cart|);
    } else {
      var init, last := cart[..|cart| - 1], cart[|cart| - 1];
      var q := if SameName(last.name, name) then quantity - 1 else quantity;
      var rest := RemoveNewest(init, name, q);
      RemoveNewestTakesNewest(init, name, q);
      var k :| SplitAt(init, name, rest.cart, rest.count, k);
      assert cart == init + [last];
      SplitAtSnoc(init, last, name, rest.cart, rest.count, k);
    }
  }

  /** A split of `init` extends to `init + [last]` at the same point: a
      matching `last` is one more removed unit, any other `last` is kept. */
  lemma SplitAtSnoc(init: seq<Product>, last: Product, name: string, kept: seq<Product>, removed: nat, k: int)
    requires SplitAt(init, name, kept, removed, k)
    ensures SameName(last.name, name) ==> SplitAt(init + [last], name, kept, removed + 1, k)
    ensures !SameName(last.name, name) ==> SplitAt(init + [last], name, kept + [last], removed, k)
  {
    var cart, tail := init + [last], init[k..];
    assert cart[..k] == init[..k];
    assert cart[k..] == tail + [last];
    TailSnoc(tail, last, name);
    if !SameName(last.name, name) {
      assert kept + [last] == cart[..k] + (Filter(tail, Others(name)) + [last]);
    }
  }

  /** One more unit at the end of the scanned tail: counted when it
      matches, kept when it does not. */
  lemma TailSnoc(tail: seq<Product>, last: Product, name: string)
    ensures SameName(last.name, name) ==>
      Filter(tail + [last], Others(name)) == Filter(tail, Others(name)) &&
      Count(tail + [last], name) == Count(tail, name) + 1
    ensures !SameName(last.name, name) ==>
      Filter(tail + [last], Others(name)) == Filter(tail, Others(name)) + [last] &&
      Count(tail + [last], name) == Count(tail, name)
  {
    FilterAppend(tail, [last], Others(name));
    FilterAppend(tail, [last], NamedLike(name));
    assert Filter([last], Others(name)) == if SameName(last.name, name) then [] else [last];
    assert |Filter([last], NamedLike(name))| == if SameName(last.name, name) then 1 else 0;
  }

  /** A stretch without units named like `name` survives the removal filter whole. */
  lemma NoneNamedKept(mid: seq<Product>, name: string)
    requires Count(mid, name) == 0
    ensures Filter(mid, Others(name)) == mid
  {
    FilterEmpty(mid, NamedLike(name));
    assert forall i :: 0 <= i < |mid| ==> Others(name)(mid[i]);
    FilterAll(mid, Others(name));
  }

  /** When `mid + back` holds no more units named like `name` than `back`
      does, `mid` holds none. */
  lemma NoneNamedBetween(mid: seq<Product>, back: seq<Product>, name: string)
    requires Count(mid + back, name) == Count(back, name)
    ensures Count(mid, name) == 0
  {
    FilterAppend(mid, back, NamedLike(name));
  }

  /** Cutting `front + mid + back` after `front` or after `mid` keeps the
      same units when both cuts remove the same number: `mid` then holds
      no unit named like `name`. */
  lemma CutsAgree(front: seq<Product>, mid: seq<Product>, back: seq<Product>, name: string)
    requires Count(mid + back, name) == Count(back, name)
    ensures front + Filter(mid + back, Others(name)) == (front + mid) + Filter(back, Others(name))
  {
    NoneNamedBetween(mid, back, name);
    NoneNamedKept(mid, name);
    FilterAppend(mid, back, Others(name));
  }

  /** Two split points witnessing removals of the same number of units
      give the same cart: between them no unit is named like `name`, so
      that stretch is kept whole either way. */
  lemma SplitAtUnique(cart: seq<Product>, name: string, kept1: seq<Product>, kept2: seq<Product>, removed: nat, lo: int, hi: int)
    requires SplitAt(cart, name, kept1, removed, lo) && SplitAt(cart, name, kept2, removed, hi)
    requires lo <= hi
    ensures kept1 == kept2
  {
    var front, mid, back := cart[..lo], cart[lo..hi], cart[hi..];
    assert cart[lo..] == mid + back;
    assert cart[..hi] == front + mid;
    CutsAgree(front, mid, back, name);
  }

  /** A newest-first removal of a given number of units is unique: the
      specification pins the cart that is left. */
  lemma RemovesNewestUnique(cart: seq<Product>, name: string, kept1: seq<Product>, kept2: seq<Product>, removed: nat)
    requires RemovesNewest(cart, name, kept1, removed) && RemovesNewest(cart, name, kept2, removed)
    ensures kept1 == kept2
  {
    var lo :| SplitAt(cart, name, kept1, removed, lo);
    var hi :| SplitAt(cart, name, kept2, removed, hi);
    if lo <= hi {
      SplitAtUnique(cart, name, kept1, kept2, removed, lo, hi);
    } else {
      SplitAtUnique(cart, name, kept2, kept1, removed, hi, lo);
    }
  }

  /** What a newest-first removal keeps: the units of other names, all of
      them and in their order, and the earliest matching units. */
  lemma RemovesNewestKeepsEarliest(cart: seq<Product>, name: string, kept: seq<Product>, removed: nat)
    requires RemovesNewest(cart, name, kept, removed)
    ensures Filter(kept, Others(name)) == Filter(cart, Others(name))
    ensures removed <= Count(cart, name)
    ensures Filter(kept, NamedLike(name)) == Filter(cart, NamedLike(name))[..Count(cart, name) - removed]
  {
    var k :| SplitAt(cart, name, kept, removed, k);
    var front, back := cart[..k], cart[k..];
    var rest := Filter(back, Others(name));
    assert cart == front + back;
    FilterAppend(front, back, Others(name));
    FilterAppend(front, back, NamedLike(name));
    FilterAppend(front, rest, Others(name));
    FilterAppend(front, rest, NamedLike(name));
    FilterAll(rest, Others(name));
    FilterNone(rest, NamedLike(name));
  }

  /** A removal invents no units: everything kept was in the cart. */
  lemma RemovesNewestKeepsOwnUnits(cart: seq<Product>, name: string, kept: seq<Product>, removed: nat)
    requires RemovesNewest(cart, name, kept, removed)
    ensures forall i :: 0 <= i < |kept| ==> kept[i] in cart
  {
    var k :| SplitAt(cart, name, kept, removed, k);
    var back := cart[k..];
    var rest := Filter(back, Others(name));
    FilterSubset(back, Others(name));
    forall i | 0 <= i < |kept|
      ensures kept[i] in cart
    {
      if i < k {
        assert kept[i] == cart[i];
      } else {
        assert kept[i] == rest[i - k];
        var j :| 0 <= j < |back| && back[j] == kept[i];
        assert cart[k + j] == kept[i];
      }
    }
  }

  /** Removing as many units as were just added, by a name matching the
      added product, takes exactly those units back out. */
  lemma {:induction false} RemoveUndoesAdd(cart: seq<Product>, p: Product, name: string, n: nat)
    requires SameName(p.name, name)
    ensures RemoveNewest(cart + Copies(p, n), name, n) == Removal(cart, n)
    decreases n
  {
    var c := cart + Copies(p, n);
    if n == 0 {
      assert c == cart;
    } else {
      assert c[..|c| - 1] == cart + Copies(p, n - 1);
      assert c[|c| - 1] == p;
      RemoveUndoesAdd(cart, p, name, n - 1);
    }
  }

  /** The state of the backward scan of removeFromCart once the units
      after `i` have been examined: those units named like `name` have
      been spliced out of `kept` and counted in `removed`. */
  ghost predicate Scanned(cart: seq<Product>, name: string, i: int, kept: seq<Product>, removed: nat) {
    -1 <= i < |cart| &&
    kept == cart[..i + 1] + Filter(cart[i + 1..], Others(name)) &&
    removed == Count(cart[i + 1..], name)
  }

  /** Splicing out the element at the seam of `front + [x] + rest`. */
  lemma Splice<T>(front: seq<T>, x: T, rest: seq<T>)
    ensures (front + [x] + rest)[|front|] == x
    ensures (front + [x] + rest)[..|front|] + (front + [x] + rest)[|front| + 1..] == front + rest
  {
    var s := front + [x] + rest;
    assert s[..|front|] == front;
    assert s[|front| + 1..] == rest;
  }

  /** One step of the scan: the unit at `i` is still in `kept` at `i`;
      splicing it out when it matches, or leaving it when it does not,
      gives the state for `i - 1`. */
  lemma ScanStep(cart: seq<Product>, name: string, i: int, kept: seq<Product>, removed: nat)
    requires Scanned(cart, name, i, kept, removed) && i >= 0
    ensures kept[i] == cart[i]
    ensures SameName(cart[i].name, name) ==> Scanned(cart, name, i - 1, kept[..i] + kept[i + 1..], removed + 1)
    ensures !SameName(cart[i].name, name) ==> Scanned(cart, name, i - 1, kept, removed)
  {
    var rest := Filter(cart[i + 1..], Others(name));
    assert cart[i..] == [cart[i]] + cart[i + 1..];
    FilterAppend([cart[i]], cart[i + 1..], Others(name));
    FilterAppend([cart[i]], cart[i + 1..], NamedLike(name));
    assert cart[..i + 1] == cart[..i] + [cart[i]];
    Splice(cart[..i], cart[i], rest);
  }

  /** Wherever the scan stops, it has performed a newest-first removal; it
      has removed every matching unit when it ran off the front. */
  lemma ScanStop(cart: seq<Product>, name: string, i: int, kept: seq<Product>, removed: nat)
    requires Scanned(cart, name, i, kept, removed)
    ensures RemovesNewest(cart, name, kept, removed)
    ensures removed <= Count(cart, name)
    ensures i == -1 ==> removed == Count(cart, name)
  {
    assert cart == cart[..i + 1] + cart[i + 1..];
    FilterAppend(cart[..i + 1], cart[i + 1..], NamedLike(name));
    assert SplitAt(cart, name, kept, removed, i + 1);
  }

  /** removeFromCart as written: walk an index from the newest unit down,
      splicing out each matching unit, while fewer than `quantity` have
      been removed. */
  method RemoveInPlace(cart: seq<Product>, name: string, quantity: int) returns (kept: seq<Product>, removed: nat)
    ensures removed == if quantity <= 0 then 0 else Min(quantity, Count(cart, name))
    ensures RemovesNewest(cart, name, kept, removed)
    ensures kept == RemoveNewest(cart, name, quantity).cart
  {
    kept := cart;
    removed := 0;
    var i := |cart| - 1;
    assert cart[i + 1..] == [];
    while i >= 0 && removed < quantity
      invariant Scanned(cart, name, i, kept, removed)
      invariant removed == 0 || removed <= quantity
      decreases i
    {
      ScanStep(cart, name, i, kept, removed);
      if SameName(kept[i].name, name) {
        kept := kept[..i] + kept[i + 1..];
        removed := removed + 1;
      }
      i := i - 1;
    }
    ScanStop(cart, name, i, kept, removed);
    RemoveNewestTakesNewest(cart, name, quantity);
    RemovesNewestUnique(cart, name, kept, RemoveNewest(cart, name, quantity).cart, removed);
  }

  /* -------------------------------------------------------------- grouping */

  /** One row of the cart display: a product name and how many units carry it. */
  datatype Line = Line(name: string, count: nat)

  /** Rows labelled exactly `name`. */
  function Labelled(name: string): Line -> bool {
    (l: Line) => l.name == name
  }

  /** One step of the counting loop of displayCart: the name's row gains a
      unit, or a new row with one unit goes at the end, as an insertion-
      ordered map does. */
  function Bump(lines: seq<Line>, name: string): seq<Line> {
    var i := FindIndex(lines, Labelled(name));
    if i == -1 then lines + [Line(name, 1)] else lines[i := Line(name, lines[i].count + 1)]
  }

  /** The per-name counts of displayCart, built by a forward scan of the cart. */
  function Tally(cart: seq<Product>): seq<Line>
    decreases |cart|
  {
    if |cart| == 0 then [] else Bump(Tally(cart[..|cart| - 1]), cart[|cart| - 1].name)
  }

  /** Number of units whose name is exactly `name` (the map is keyed by the
      name as stored, without case folding). */
  function Occurrences(cart: seq<Product>, name: string): nat {
    |Filter(cart, Called(name))|
  }

  /** Position of the first unit named exactly `name`, or -1. */
  function FirstSeen(cart: seq<Product>, name: string): int {
    FindIndex(cart, Called(name))
  }

  /** No two rows carry the same name. */
  ghost predicate DistinctNames(lines: seq<Line>) {
    forall i, j :: 0 <= i < j < |lines| ==> lines[i].name != lines[j].name
  }

  /** Each row counts exactly the units carrying its name, and at least one. */
  ghost predicate CountsMatch(cart: seq<Product>, lines: seq<Line>) {
    forall i :: 0 <= i < |lines| ==> 0 < lines[i].count == Occurrences(cart, lines[i].name)
  }

  /** Some row carries `name`. */
  ghost predicate HasRow(lines: seq<Line>, name: string) {
    exists j :: 0 <= j < |lines| && lines[j].name == name
  }

  /** Every unit's name has a row. */
  ghost predicate CoversCart(cart: seq<Product>, lines: seq<Line>) {
    forall i :: 0 <= i < |cart| ==> HasRow(lines, cart[i].name)
  }

  /** Rows appear in the order in which their names first occur in the cart. */
  ghost predicate FirstSeenOrder(cart: seq<Product>, lines: seq<Line>) {
    forall i, j :: 0 <= i < j < |lines| ==> FirstSeen(cart, lines[i].name) < FirstSeen(cart, lines[j].name)
  }

  /** `lines` is the grouping of `cart`: one row per distinct name, with
      that name's unit count, covering every unit, ordered by where each
      name first occurs in the cart. */
  ghost predicate Grouped(cart: seq<Product>, lines: seq<Line>) {
    DistinctNames(lines) && CountsMatch(cart, lines) && CoversCart(cart, lines) && FirstSeenOrder(cart, lines)
  }

  /** Appending a unit adds one occurrence of its own name only. */
  lemma OccurrencesSnoc(init: seq<Product>, x: Product, name: string)
    ensures Occurrences(init + [x], name) == Occurrences(init, name) + (if x.name == name then 1 else 0)
  {
    FilterAppend(init, [x], Called(name));
  }

  /** Appending a unit moves no first occurrence, and gives a name not yet
      present its first occurrence at the end. */
  lemma FirstSeenSnoc(init: seq<Product>, x: Product, name: string)
    ensures FirstSeen(init, name) != -1 ==> FirstSeen(init + [x], name) == FirstSeen(init, name)
    ensures FirstSeen(init, name) == -1 ==>
      FirstSeen(init + [x], name) == (if x.name == name then |init| else -1)
  {
    var cart := init + [x];
    assert forall i :: 0 <= i < |init| ==> cart[i] == init[i];
    assert cart[|init|] == x;
  }

  /** A name occurs in the cart exactly when it has a first occurrence. */
  lemma OccursIffSeen(cart: seq<Product>, name: string)
    ensures Occurrences(cart, name) > 0 <==> FirstSeen(cart, name) != -1
  {
    var i := FirstSeen(cart, name);
    if i == -1 {
      FilterNone(cart, Called(name));
    } else {
      FilterKeeps(cart, Called(name), i);
    }
  }

  /** A name with a row: Bump keeps every row's name and adds one unit to
      that row alone. */
  lemma BumpExistingRows(lines: seq<Line>, name: string)
    requires FindIndex(lines, Labelled(name)) != -1
    ensures var k := FindIndex(lines, Labelled(name));
      var r := Bump(lines, name);
      |r| == |lines| && lines[k].name == name && r[k].count == lines[k].count + 1 &&
      forall i :: 0 <= i < |r| ==> r[i].name == lines[i].name && (i != k ==> r[i] == lines[i])
  {
    var k := FindIndex(lines, Labelled(name));
    assert Labelled(name)(lines[k]);
  }

  /** Counting one more unit of a name that has a row keeps the counts right. */
  lemma BumpExistingCounts(init: seq<Product>, x: Product, lines: seq<Line>)
    requires DistinctNames(lines) && CountsMatch(init, lines)
    requires FindIndex(lines, Labelled(x.name)) != -1
    ensures CountsMatch(init + [x], Bump(lines, x.name))
  {
    var k := FindIndex(lines, Labelled(x.name));
    var r := Bump(lines, x.name);
    BumpExistingRows(lines, x.name);
    forall i | 0 <= i < |r|
      ensures 0 < r[i].count == Occurrences(init + [x], r[i].name)
    {
      assert r[i].name == lines[i].name;
      OccurrencesSnoc(init, x, r[i].name);
      assert 0 < lines[i].count == Occurrences(init, lines[i].name);
      if i == k {
        assert lines[k].name == x.name;
        assert r[k].count == lines[k].count + 1;
        assert Occurrences(init + [x], r[i].name) == Occurrences(init, lines[i].name) + 1;
      } else {
        assert r[i] == lines[i] && lines[i].name != lines[k].name;
      }
    }
  }

  /** Rows whose names occur keep their first occurrences when a unit is appended. */
  lemma KeepFirstSeen(init: seq<Product>, x: Product, lines: seq<Line>)
    requires CountsMatch(init, lines)
    ensures forall i :: 0 <= i < |lines| ==>
      FirstSeen(init + [x], lines[i].name) == FirstSeen(init, lines[i].name) != -1
  {
    forall i | 0 <= i < |lines|
      ensures FirstSeen(init + [x], lines[i].name) == FirstSeen(init, lines[i].name) != -1
    {
      OccursIffSeen(init, lines[i].name);
      FirstSeenSnoc(init, x, lines[i].name);
    }
  }

  /** Rows that keep their names keep their order of first occurrence. */
  lemma SameNamesOrder(init: seq<Product>, x: Product, lines: seq<Line>, r: seq<Line>)
    requires CountsMatch(init, lines) && FirstSeenOrder(init, lines)
    requires |r| == |lines| && forall i :: 0 <= i < |r| ==> r[i].name == lines[i].name
    ensures FirstSeenOrder(init + [x], r)
  {
    KeepFirstSeen(init, x, lines);
  }

  /** Rows that keep their names cover the old units, and the row for the
      new unit's name covers the new one. */
  lemma SameNamesCover(init: seq<Product>, x: Product, lines: seq<Line>, r: seq<Line>, k: int)
    requires CoversCart(init, lines)
    requires |r| >= |lines| && forall i :: 0 <= i < |lines| ==> r[i].name == lines[i].name
    requires 0 <= k < |r| && r[k].name == x.name
    ensures CoversCart(init + [x], r)
  {
    var cart := init + [x];
    forall i | 0 <= i < |cart|
      ensures HasRow(r, cart[i].name)
    {
      if i == |init| {
        assert r[k].name == cart[i].name;
      } else {
        assert cart[i] == init[i];
        assert HasRow(lines, init[i].name);
        var j :| 0 <= j < |lines| && lines[j].name == init[i].name;
        assert r[j].name == cart[i].name;
      }
    }
  }

  /** Grouping step when the new unit's name already has a row. */
  lemma BumpExisting(init: seq<Product>, x: Product, lines: seq<Line>)
    requires Grouped(init, lines)
    requires FindIndex(lines, Labelled(x.name)) != -1
    ensures Grouped(init + [x], Bump(lines, x.name))
  {
    var k := FindIndex(lines, Labelled(x.name));
    var r := Bump(lines, x.name);
    BumpExistingRows(lines, x.name);
    BumpExistingCounts(init, x, lines);
    SameNamesOrder(init, x, lines, r);
    SameNamesCover(init, x, lines, r, k);
  }

  /** A name without a row does not occur in the cart. */
  lemma NoRowNoUnit(init: seq<Product>, lines: seq<Line>, name: string)
    requires CoversCart(init, lines)
    requires FindIndex(lines, Labelled(name)) == -1
    ensures Occurrences(init, name) == 0 && FirstSeen(init, name) == -1
  {
    forall i | 0 <= i < |init|
      ensures !Called(name)(init[i])
    {
      assert HasRow(lines, init[i].name);
      var j :| 0 <= j < |lines| && lines[j].name == init[i].name;
      assert !Labelled(name)(lines[j]);
    }
    FilterNone(init, Called(name));
    OccursIffSeen(init, name);
  }

  /** Counting the first unit of a new name leaves the old rows' counts alone. */
  lemma BumpFreshCounts(init: seq<Product>, x: Product, lines: seq<Line>)
    requires CountsMatch(init, lines)
    requires Occurrences(init, x.name) == 0
    ensures CountsMatch(init + [x], lines + [Line(x.name, 1)])
  {
    var r := lines + [Line(x.name, 1)];
    forall i | 0 <= i < |r|
      ensures 0 < r[i].count == Occurrences(init + [x], r[i].name)
    {
      OccurrencesSnoc(init, x, r[i].name);
    }
  }

  /** A new row for a name not yet in the cart goes after all older rows. */
  lemma BumpFreshOrder(init: seq<Product>, x: Product, lines: seq<Line>)
    requires CountsMatch(init, lines) && FirstSeenOrder(init, lines)
    requires FirstSeen(init, x.name) == -1
    ensures FirstSeenOrder(init + [x], lines + [Line(x.name, 1)])
  {
    var r := lines + [Line(x.name, 1)];
    KeepFirstSeen(init, x, lines);
    FirstSeenSnoc(init, x, x.name);
    forall i, j | 0 <= i < j < |r|
      ensures FirstSeen(init + [x], r[i].name) < FirstSeen(init + [x], r[j].name)
    {
      assert r[i] == lines[i];
      if j < |lines| {
        assert r[j] == lines[j];
      }
    }
  }

  /** A new name's row differs from every older row. */
  lemma BumpFreshDistinct(lines: seq<Line>, name: string)
    requires DistinctNames(lines)
    requires FindIndex(lines, Labelled(name)) == -1
    ensures DistinctNames(lines + [Line(name, 1)])
  {
    var r := lines + [Line(name, 1)];
    forall i, j | 0 <= i < j < |r|
      ensures r[i].name != r[j].name
    {
      assert r[i] == lines[i];
      if j < |lines| {
        assert r[j] == lines[j];
      } else {
        assert !Labelled(name)(lines[i]);
      }
    }
  }

  /** Grouping step when the new unit's name is seen for the first time. */
  lemma BumpFresh(init: seq<Product>, x: Product, lines: seq<Line>)
    requires Grouped(init, lines)
    requires FindIndex(lines, Labelled(x.name)) == -1
    ensures Grouped(init + [x], Bump(lines, x.name))
  {
    var r := lines + [Line(x.name, 1)];
    assert Bump(lines, x.name) == r;
    NoRowNoUnit(init, lines, x.name);
    BumpFreshDistinct(lines, x.name);
    BumpFreshCounts(init, x, lines);
    BumpFreshOrder(init, x, lines);
    SameNamesCover(init, x, lines, r, |lines|);
  }

  /** The counting loop of displayCart produces the grouping of the cart. */
  lemma {:induction false} TallyGroups(cart: seq<Product>)
    ensures Grouped(cart, Tally(cart))
    decreases |cart|
  {
    if |cart| > 0 {
      var init, x := cart[..|cart| - 1], cart[|cart| - 1];
      assert cart == init + [x];
      TallyGroups(init);
      if FindIndex(Tally(init), Labelled(x.name)) == -1 {
        BumpFresh(init, x, Tally(init));
      } else {
        BumpExisting(init, x, Tally(init));
      }
    }
  }

  /* ------------------------------------------------------------- summing */

  /** Sum of `f` over the rows. */
  function Sum(lines: seq<Line>, f: Line -> int): int
    decreases |lines|
  {
    if |lines| == 0 then 0 else Sum(lines[..|lines| - 1], f) + f(lines[|lines| - 1])
  }

  /** Replacing one row changes the sum by the difference of the two rows. */
  lemma {:induction false} SumUpdate(lines: seq<Line>, i: int, l: Line, f: Line -> int)
    requires 0 <= i < |lines|
    ensures Sum(lines[i := l], f) == Sum(lines, f) - f(lines[i]) + f(l)
    decreases |lines|
  {
    var n := |lines| - 1;
    if i < n {
      assert lines[i := l][..n] == lines[..n][i := l];
      SumUpdate(lines[..n], i, l, f);
    } else {
      assert lines[i := l][..n] == lines[..n];
    }
  }

  /** Appending a row adds its value to the sum. */
  lemma SumSnoc(lines: seq<Line>, l: Line, f: Line -> int)
    ensures Sum(lines + [l], f) == Sum(lines, f) + f(l)
  {
    assert (lines + [l])[..|lines|] == lines;
  }

  /** Unit count of a row. */
  function Units(): Line -> int {
    (l: Line) => l.count
  }

  /** The row counts add up to the number of units in the cart. */
  lemma {:induction false} TallySize(cart: seq<Product>)
    ensures Sum(Tally(cart), Units()) == |cart|
    decreases |cart|
  {
    if |cart| > 0 {
      var init, x := cart[..|cart| - 1], cart[|cart| - 1];
      var lines := Tally(init);
      TallySize(init);
      var k := FindIndex(lines, Labelled(x.name));
      if k == -1 {
        SumSnoc(lines, Line(x.name, 1), Units());
      } else {
        SumUpdate(lines, k, Line(x.name, lines[k].count + 1), Units());
      }
    }
  }

  /** Sum of the unit prices of the cart, as displayCart and buyProducts
      compute it with `reduce`. */
  function Total(cart: seq<Product>): nat
    decreases |cart|
  {
    if |cart| == 0 then 0 else Total(cart[..|cart| - 1]) + cart[|cart| - 1].price
  }

  /** Totals add across concatenation. */
  lemma {:induction false} TotalAppend(a: seq<Product>, b: seq<Product>)
    ensures Total(a + b) == Total(a) + Total(b)
    decreases |b|
  {
    if |b| > 0 {
      var n := |b| - 1;
      var ab := a + b;
      assert ab[..|ab| - 1] == a + b[..n];
      assert ab[|ab| - 1] == b[n];
      assert Total(ab) == Total(a + b[..n]) + b[n].price;
      TotalAppend(a, b[..n]);
      assert Total(b) == Total(b[..n]) + b[n].price;
    } else {
      assert a + b == a;
    }
  }

  /** Appending one more unit of `p` adds its price. */
  lemma CopiesStep(p: Product, n: int)
    requires n > 0
    ensures Total(Copies(p, n)) == Total(Copies(p, n - 1)) + p.price
  {
    var c := Copies(p, n);
    assert c[..|c| - 1] == Copies(p, n - 1);
  }

  /** `n` units of `p` cost `n` times its price. */
  lemma {:induction false} TotalCopies(p: Product, n: nat)
    ensures Total(Copies(p, n)) == p.price * n
    decreases n
  {
    if n > 0 {
      CopiesStep(p, n);
      TotalCopies(p, n - 1);
    }
  }

  /** Unit price of `name` in `catalog`: the price of the first product
      with exactly that name, as displayCart looks it up, or 0 when there is
      none (a name missing from the catalog never reaches a cart). */
  function PriceIn(catalog: seq<Product>, name: string): nat {
    var found := FindFirst(catalog, Called(name));
    if found.Some? then found.value.price else 0
  }

  /** Value of a row: its count times its unit price in `catalog`. */
  function Cost(catalog: seq<Product>): Line -> int {
    (l: Line) => l.count * PriceIn(catalog, l.name)
  }

  /** Over the store's catalog, `PriceIn` is the price of the product the
      exact-name lookup finds, and 0 when it finds none. */
  lemma PriceInIsFindExact(name: string)
    ensures FindExact(name).Some? ==> PriceIn(Products, name) == FindExact(name).value.price
    ensures FindExact(name).None? ==> PriceIn(Products, name) == 0
  {
  }

  /** The unit price displayCart prints beside each row. */
  function RowPrices(lines: seq<Line>): seq<nat> {
    seq(|lines|, i requires 0 <= i < |lines| => PriceIn(Products, lines[i].name))
  }

  /** Counting one more unit of a name adds that name's price to the rows' total. */
  lemma CostStep(lines: seq<Line>, name: string, catalog: seq<Product>)
    ensures Sum(Bump(lines, name), Cost(catalog)) == Sum(lines, Cost(catalog)) + PriceIn(catalog, name)
  {
    var k := FindIndex(lines, Labelled(name));
    if k == -1 {
      SumSnoc(lines, Line(name, 1), Cost(catalog));
    } else {
      var c := lines[k].count;
      assert lines[k].name == name;
      SumUpdate(lines, k, Line(name, c + 1), Cost(catalog));
      MulSucc(c, PriceIn(catalog, name));
    }
  }

  /** One more unit adds one more price (kept apart to spare the larger proof). */
  lemma MulSucc(c: int, p: int)
    ensures (c + 1) * p == c * p + p
  {
  }

  /** The rows account for the total whenever every unit costs in `catalog`
      what it costs in the cart. */
  lemma {:induction false} TotalByPrice(cart: seq<Product>, catalog: seq<Product>)
    requires forall i :: 0 <= i < |cart| ==> PriceIn(catalog, cart[i].name) == cart[i].price
    ensures Total(cart) == Sum(Tally(cart), Cost(catalog))
    decreases |cart|
  {
    if |cart| > 0 {
      var init, x := cart[..|cart| - 1], cart[|cart| - 1];
      assert forall i :: 0 <= i < |init| ==> init[i] == cart[i];
      TotalByPrice(init, catalog);
      CostStep(Tally(init), x.name, catalog);
    }
  }

  /** Units taken from the catalog are priced at their own price. */
  lemma CatalogPrices(cart: seq<Product>)
    requires forall i :: 0 <= i < |cart| ==> cart[i] in Products
    ensures forall i :: 0 <= i < |cart| ==> PriceIn(Products, cart[i].name) == cart[i].price
  {
    forall i | 0 <= i < |cart|
      ensures PriceIn(Products, cart[i].name) == cart[i].price
    {
      FindExactOwnName(cart[i]);
    }
  }

  /** The displayed rows account for the displayed total: for a cart of
      catalog products, the total equals the sum over the rows of count
      times catalog unit price. */
  lemma TotalByLines(cart: seq<Product>)
    requires forall i :: 0 <= i < |cart| ==> cart[i] in Products
    ensures Total(cart) == Sum(Tally(cart), Cost(Products))
  {
    CatalogPrices(cart);
    TotalByPrice(cart, Products);
  }
}
