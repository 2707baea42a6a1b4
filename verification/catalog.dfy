/** The fixed product catalog: eight products, looked up by name without
    regard to case, and searched by name prefix. Prices are whole euro cents. */
module Catalog {

  import opened Wrappers
  import opened Seqs
  import opened Text

  datatype Product = Product(name: string, price: nat)

  /** The catalog in display order (main.js:9-42). */
  const Products: seq<Product> := [
    Product("Apple", 199),
    Product("Banana", 1000),
    Product("Orange", 75),
    Product("Grapes", 350),
    Product("Lemon", 299),
    Product("Peach", 599),
    Product("Pear", 249),
    Product("Cherry", 179)
  ]

  /** Products whose name equals `name` up to case. */
  function NamedLike(name: string): Product -> bool {
    (p: Product) => SameName(p.name, name)
  }

  /** Products whose name is exactly `name`. */
  function Called(name: string): Product -> bool {
    (p: Product) => p.name == name
  }

  /** Products whose lower-case name starts with the lower-case `term`. */
  function StartsWith(term: string): Product -> bool {
    (p: Product) => Lower(term) <= Lower(p.name)
  }

  /** Case-insensitive lookup: the first catalog product named like `name`. */
  function Find(name: string): (r: Option<Product>)
    ensures r.None? <==> forall i :: 0 <= i < |Products| ==> !SameName(Products[i].name, name)
    ensures r.Some? ==> r.value in Products && SameName(r.value.name, name)
  {
    var i := FindIndex(Products, NamedLike(name));
    if i == -1 then None else Some(Products[i])
  }

  /** Exact-name lookup, as the cart display does when it prints a unit price. */
  function FindExact(name: string): Option<Product> {
    FindFirst(Products, Called(name))
  }

  /** The exact lookup finds nothing only when no product has that name, and
      otherwise finds a catalog product with exactly that name. */
  lemma FindExactFinds(name: string)
    ensures FindExact(name).None? <==> forall i :: 0 <= i < |Products| ==> Products[i].name != name
    ensures FindExact(name).Some? ==> FindExact(name).value in Products && FindExact(name).value.name == name
  {
    FindFirstAtIndex(Products, Called(name));
  }

  /** No two catalog names are equal up to case. */
  lemma NamesDistinct()
    ensures forall i, j :: 0 <= i < j < |Products| ==> !SameName(Products[i].name, Products[j].name)
  {
    forall i, j | 0 <= i < j < |Products|
      ensures !SameName(Products[i].name, Products[j].name)
    {
      var a := Products[i].name;
      var b := Products[j].name;
      assert |a| >= 4 && |b| >= 4;
      assert LowerChar(a[0]) != LowerChar(b[0]) || LowerChar(a[3]) != LowerChar(b[3]);
      assert Lower(a)[0] != Lower(b)[0] || Lower(a)[3] != Lower(b)[3];
    }
  }

  /** Every catalog product is found by its own name written in any case. */
  lemma FindAnyCase(p: Product, name: string)
    requires p in Products
    requires SameName(p.name, name)
    ensures Find(name) == Some(p)
  {
    NamesDistinct();
    var i :| 0 <= i < |Products| && Products[i] == p;
    var q := Find(name).value;
    var j :| 0 <= j < |Products| && Products[j] == q;
    assert SameName(Products[i].name, Products[j].name);
  }

  /** Every catalog product is found by its exact name. */
  lemma FindExactOwnName(p: Product)
    requires p in Products
    ensures FindExact(p.name) == Some(p)
  {
    NamesDistinct();
    FindExactFinds(p.name);
    var i :| 0 <= i < |Products| && Products[i] == p;
    var q := FindExact(p.name).value;
    var j :| 0 <= j < |Products| && Products[j] == q;
    assert SameName(Products[i].name, Products[j].name);
  }

  /** The products whose names start with `term`, ignoring case, in catalog order. */
  function Search(term: string): (r: seq<Product>)
    ensures forall i :: 0 <= i < |r| ==> r[i] in Products && Lower(term) <= Lower(r[i].name)
  {
    FilterSubset(Products, StartsWith(term));
    Filter(Products, StartsWith(term))
  }

  /** Search keeps exactly the matching products and keeps them in catalog
      order: the result is `Products` read at the increasing positions
      `Positions(Products, StartsWith(term))`, and every matching position
      is among them. */
  lemma SearchInCatalogOrder(term: string)
    ensures |Search(term)| == |Positions(Products, StartsWith(term))|
    ensures forall k :: 0 <= k < |Search(term)| ==>
      var i := Positions(Products, StartsWith(term))[k];
      0 <= i < |Products| && Search(term)[k] == Products[i]
    ensures forall k, l :: 0 <= k < l < |Search(term)| ==>
      Positions(Products, StartsWith(term))[k] < Positions(Products, StartsWith(term))[l]
    ensures forall i :: 0 <= i < |Products| && Lower(term) <= Lower(Products[i].name) ==>
      i in Positions(Products, StartsWith(term)) && Products[i] in Search(term)
  {
    FilterAtPositions(Products, StartsWith(term));
    PositionsIncrease(Products, StartsWith(term));
    forall i | 0 <= i < |Products| && Lower(term) <= Lower(Products[i].name)
      ensures i in Positions(Products, StartsWith(term)) && Products[i] in Search(term)
    {
      PositionsCover(Products, StartsWith(term), i);
      FilterKeeps(Products, StartsWith(term), i);
    }
  }

  /** An empty search term lists the whole catalog. */
  lemma SearchEmptyTerm()
    ensures Search("") == Products
  {
    FilterAll(Products, StartsWith(""));
  }

  /** Which catalog names start with "pe": exactly Peach and Pear. */
  lemma PeMatches()
    ensures forall i :: 0 <= i < |Products| ==> (StartsWith("pe")(Products[i]) <==> i == 5 || i == 6)
  {
    assert Lower("pe") == "pe";
    forall i | 0 <= i < |Products| && i != 5 && i != 6
      ensures !StartsWith("pe")(Products[i])
    {
      assert Lower(Products[i].name)[0] != 'p';
    }
    forall i | i == 5 || i == 6
      ensures StartsWith("pe")(Products[i])
    {
      assert Lower(Products[i].name)[..2] == "pe";
    }
  }

  /** Of the catalog split as front, middle and back, only the middle two
      products start with "pe". */
  lemma PeSlices()
    ensures Filter(Products[..5], StartsWith("pe")) == []
    ensures Filter(Products[5..7], StartsWith("pe")) == Products[5..7]
    ensures Filter(Products[7..], StartsWith("pe")) == []
  {
    var f := StartsWith("pe");
    PeMatches();
    FilterNone(Products[..5], f);
    FilterAll(Products[5..7], f);
    FilterNone(Products[7..], f);
  }

  /** Searching for "pe" finds Peach and Pear, in that order. */
  lemma SearchPe()
    ensures Search("pe") == [Product("Peach", 599), Product("Pear", 249)]
  {
    var f := StartsWith("pe");
    var front, middle, back := Products[..5], Products[5..7], Products[7..];
    PeSlices();
    assert Products == front + (middle + back);
    FilterAppend(front, middle + back, f);
    FilterAppend(middle, back, f);
  }
}
