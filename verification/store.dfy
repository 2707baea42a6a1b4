/** The store session: a cart and a wallet balance, changed only by the
    commands typed at the prompt. Each command yields the next session and
    a reply standing for the text the store prints. */
module Store {

  import opened Wrappers
  import opened Text
  import opened Catalog
  import opened Cart

  /** The wallet holds 40.00 euro when the store opens. */
  const OpeningBalance: int := 4000

  /** Everything a command can change: the cart (one entry per unit) and
      the wallet balance in cents. */
  datatype Session = Session(cart: seq<Product>, balance: int)

  /** The session when the store opens: an empty cart and a full wallet. */
  const Opening: Session := Session([], OpeningBalance)

  /** What the store keeps true between commands: the balance is never
      negative and every unit in the cart is a catalog product. */
  ghost predicate Valid(s: Session) {
    s.balance >= 0 && forall i :: 0 <= i < |s.cart| ==> s.cart[i] in Products
  }

  /** What a command prints, without its wording. */
  datatype Reply =
    | Help
    | Listing(products: seq<Product>)
    | Balance(amount: int)
    | SearchUsage
    | Found(products: seq<Product>)
    | NoProducts
    | AddUsage
    | ProductNotFound
    | Insufficient(quantity: int, product: Product)
    | Added(quantity: int, product: Product)
    | RemoveUsage
    | Removed(count: nat, name: string)
    | CartEmpty
    | CartContents(lines: seq<Line>, prices: seq<nat>, total: nat)
    | Bought(spent: nat, remaining: int)
    | CannotAfford
    | UnknownCommand(command: string)

  /** The session after a command and the command's reply. */
  datatype Step = Step(session: Session, reply: Reply)

  /** `after` is `before` followed by `quantity` units of `p` (none when
      `quantity` is zero or negative). */
  ghost predicate Appended(before: seq<Product>, after: seq<Product>, p: Product, quantity: int) {
    |after| == |before| + (if quantity > 0 then quantity else 0) &&
    after[..|before|] == before &&
    forall i :: |before| <= i < |after| ==> after[i] == p
  }

  /** The `search` command after its argument check: the matching products,
      or a note that there are none. */
  function SearchFor(term: string): (r: Reply)
    ensures r.NoProducts? <==> |Search(term)| == 0
    ensures r.Found? ==> r.products == Search(term) && |r.products| > 0
    ensures r.NoProducts? || r.Found?
  {
    var found := Search(term);
    if |found| == 0 then NoProducts else Found(found)
  }

  /** addToCart: look the product up without regard to case; refuse it when
      `quantity` units cost more than the balance; otherwise append the
      units. The balance is never touched. */
  function AddToCart(s: Session, quantity: int, name: string): (r: Step)
    ensures r.session.balance == s.balance
    ensures r.reply.ProductNotFound? || r.reply.Insufficient? || r.reply.Added?
    ensures r.reply.ProductNotFound? <==> forall i :: 0 <= i < |Products| ==> !SameName(Products[i].name, name)
    ensures r.reply.Insufficient? ==>
      r.reply.product in Products && SameName(r.reply.product.name, name) &&
      r.reply.quantity == quantity && r.reply.product.price * quantity > s.balance
    ensures r.reply.Added? ==>
      r.reply.product in Products && SameName(r.reply.product.name, name) &&
      r.reply.quantity == quantity && r.reply.product.price * quantity <= s.balance &&
      Appended(s.cart, r.session.cart, r.reply.product, quantity)
    ensures !r.reply.Added? ==> r.session == s
  {
    var found := Find(name);
    if found.None? then Step(s, ProductNotFound)
    else
      var p := found.value;
      if p.price * quantity > s.balance then Step(s, Insufficient(quantity, p))
      else Step(Session(s.cart + Copies(p, quantity), s.balance), Added(quantity, p))
  }

  /** removeFromCart: take out up to `quantity` units named like `name`,
      newest first, and report how many went. The balance is never touched. */
  function RemoveFromCart(s: Session, quantity: int, name: string): (r: Step)
    ensures r.reply.Removed? && r.reply.name == name
    ensures r.reply.count == if quantity <= 0 then 0 else Min(quantity, Count(s.cart, name))
    ensures |r.session.cart| == |s.cart| - r.reply.count
    ensures RemovesNewest(s.cart, name, r.session.cart, r.reply.count)
    ensures r.session.balance == s.balance
  {
    var removal := RemoveNewest(s.cart, name, quantity);
    RemoveNewestTakesNewest(s.cart, name, quantity);
    Step(Session(removal.cart, s.balance), Removed(removal.count, name))
  }

  /** displayCart: nothing changes; an empty cart says so, any other cart
      is shown grouped per name, each row with the unit price the exact-name
      catalog lookup gives, and with the total of its unit prices. */
  function ViewCart(s: Session): (r: Step)
    ensures r.session == s
    ensures r.reply.CartEmpty? <==> |s.cart| == 0
    ensures r.reply.CartEmpty? || r.reply.CartContents?
    ensures r.reply.CartContents? ==>
      Grouped(s.cart, r.reply.lines) &&
      Sum(r.reply.lines, Units()) == |s.cart| &&
      r.reply.total == Total(s.cart)
    ensures r.reply.CartContents? ==>
      |r.reply.prices| == |r.reply.lines| &&
      forall i :: 0 <= i < |r.reply.lines| ==>
        var found := FindExact(r.reply.lines[i].name);
        r.reply.prices[i] == if found.Some? then found.value.price else 0
  {
    if |s.cart| == 0 then Step(s, CartEmpty)
    else
      var lines := Tally(s.cart);
      TallyGroups(s.cart);
      TallySize(s.cart);
      forall i | 0 <= i < |lines| {
        PriceInIsFindExact(lines[i].name);
      }
      Step(s, CartContents(lines, RowPrices(lines), Total(s.cart)))
  }

  /** buyProducts: an empty cart buys nothing; a cart the balance covers is
      paid for and emptied; any other cart is refused and nothing changes. */
  function Buy(s: Session): (r: Step)
    ensures r.reply.CartEmpty? <==> |s.cart| == 0
    ensures r.reply.Bought? <==> |s.cart| > 0 && Total(s.cart) <= s.balance
    ensures r.reply.CartEmpty? || r.reply.Bought? || r.reply.CannotAfford?
    ensures r.reply.Bought? ==>
      r.reply.spent == Total(s.cart) && r.session.cart == [] &&
      r.session.balance == r.reply.remaining == s.balance - r.reply.spent &&
      r.session.balance >= 0
    ensures !r.reply.Bought? ==> r.session == s
  {
    if |s.cart| == 0 then Step(s, CartEmpty)
    else
      var total := Total(s.cart);
      if total <= s.balance then Step(Session([], s.balance - total), Bought(total, s.balance - total))
      else Step(s, CannotAfford)
  }

  /** The first word of a line, which names the command. */
  function Command(line: string): string {
    Split(line, ' ')[0]
  }

  /** The words after the first one. */
  function Args(line: string): seq<string> {
    Split(line, ' ')[1..]
  }

  /** The `add` and `remove` argument check: exactly two arguments, the
      first one a number. */
  predicate QuantityArgs(args: seq<string>, quantityOf: string -> Option<int>) {
    |args| == 2 && quantityOf(args[0]).Some?
  }

  /** The line handler: split the line at single spaces, take the first
      word as the command, check the arguments' shape and run the command.
      `quantityOf` stands for the numeric test and integer parse applied to
      a quantity word: `None` when the word is not a number. */
  function Handle(s: Session, line: string, quantityOf: string -> Option<int>): (r: Step)
    ensures Command(line) !in {"add", "remove", "buy"} ==> r.session == s
    ensures r.session.balance <= s.balance
    ensures r.session.balance != s.balance ==>
      Command(line) == "buy" && r.session.cart == [] && r.session.balance == s.balance - Total(s.cart)
  {
    var command, args := Command(line), Args(line);
    if command == "help" then Step(s, Help)
    else if command == "list" then Step(s, Listing(Products))
    else if command == "balance" then Step(s, Balance(s.balance))
    else if command == "search" then
      if |args| != 1 then Step(s, SearchUsage) else Step(s, SearchFor(args[0]))
    else if command == "add" then
      if !QuantityArgs(args, quantityOf) then Step(s, AddUsage)
      else AddToCart(s, quantityOf(args[0]).value, args[1])
    else if command == "remove" then
      if !QuantityArgs(args, quantityOf) then Step(s, RemoveUsage)
      else RemoveFromCart(s, quantityOf(args[0]).value, args[1])
    else if command == "cart" then ViewCart(s)
    else if command == "buy" then Buy(s)
    else Step(s, UnknownCommand(command))
  }

  /** The final session and every reply, in order, after handling `lines`
      one after another. */
  datatype Transcript = Transcript(session: Session, replies: seq<Reply>)

  /** Handles the lines in order, as the prompt loop does. */
  function Run(s: Session, lines: seq<string>, quantityOf: string -> Option<int>): (t: Transcript)
    ensures |t.replies| == |lines|
    ensures t.session.balance <= s.balance
    decreases |lines|
  {
    if |lines| == 0 then Transcript(s, [])
    else
      var step := Handle(s, lines[0], quantityOf);
      var rest := Run(step.session, lines[1..], quantityOf);
      Transcript(rest.session, [step.reply] + rest.replies)
  }

  /* ------------------------------------------------- what a command keeps */

  /** Adding keeps the session valid: only catalog products are appended. */
  lemma AddKeepsValid(s: Session, quantity: int, name: string)
    requires Valid(s)
    ensures Valid(AddToCart(s, quantity, name).session)
  {
    var r := AddToCart(s, quantity, name);
    if r.reply.Added? {
      var cart := r.session.cart;
      forall i | 0 <= i < |cart|
        ensures cart[i] in Products
      {
        if i < |s.cart| {
          assert cart[i] == cart[..|s.cart|][i];
        }
      }
    }
  }

  /** Removing keeps the session valid: the units left were all in the cart. */
  lemma RemoveKeepsValid(s: Session, quantity: int, name: string)
    requires Valid(s)
    ensures Valid(RemoveFromCart(s, quantity, name).session)
  {
    var r := RemoveFromCart(s, quantity, name);
    var kept := r.session.cart;
    RemovesNewestKeepsOwnUnits(s.cart, name, kept, r.reply.count);
    forall i | 0 <= i < |kept|
      ensures kept[i] in Products
    {
      var j :| 0 <= j < |s.cart| && s.cart[j] == kept[i];
    }
  }

  /** Every command keeps the session valid. */
  lemma HandleKeepsValid(s: Session, line: string, quantityOf: string -> Option<int>)
    requires Valid(s)
    ensures Valid(Handle(s, line, quantityOf).session)
  {
    var command, args := Command(line), Args(line);
    if command == "add" && QuantityArgs(args, quantityOf) {
      AddKeepsValid(s, quantityOf(args[0]).value, args[1]);
    } else if command == "remove" && QuantityArgs(args, quantityOf) {
      RemoveKeepsValid(s, quantityOf(args[0]).value, args[1]);
    }
  }

  /** Any sequence of commands from a valid session ends in a valid session. */
  lemma {:induction false} RunKeepsValid(s: Session, lines: seq<string>, quantityOf: string -> Option<int>)
    requires Valid(s)
    ensures Valid(Run(s, lines, quantityOf).session)
    decreases |lines|
  {
    if |lines| > 0 {
      HandleKeepsValid(s, lines[0], quantityOf);
      RunKeepsValid(Handle(s, lines[0], quantityOf).session, lines[1..], quantityOf);
    }
  }

  /** From the opening session, whatever is typed, the balance stays
      between zero and the opening balance and the cart holds only
      catalog products. */
  lemma RunFromOpening(lines: seq<string>, quantityOf: string -> Option<int>)
    ensures var t := Run(Opening, lines, quantityOf);
      Valid(t.session) && t.session.balance <= OpeningBalance
  {
    RunKeepsValid(Opening, lines, quantityOf);
  }

  /* ------------------------------------------------------ argument checks */

  /** `add` runs addToCart exactly when it has two arguments and the first
      is a number; otherwise it prints its usage and changes nothing. */
  lemma AddArguments(s: Session, line: string, quantityOf: string -> Option<int>)
    requires Command(line) == "add"
    ensures var r := Handle(s, line, quantityOf);
      (r.reply == AddUsage <==> !QuantityArgs(Args(line), quantityOf)) &&
      (r.reply == AddUsage ==> r.session == s) &&
      (QuantityArgs(Args(line), quantityOf) ==>
        r == AddToCart(s, quantityOf(Args(line)[0]).value, Args(line)[1]))
  {
  }

  /** `remove` runs removeFromCart exactly when it has two arguments and the
      first is a number; otherwise it prints its usage and changes nothing. */
  lemma RemoveArguments(s: Session, line: string, quantityOf: string -> Option<int>)
    requires Command(line) == "remove"
    ensures var r := Handle(s, line, quantityOf);
      (r.reply == RemoveUsage <==> !QuantityArgs(Args(line), quantityOf)) &&
      (r.reply == RemoveUsage ==> r.session == s) &&
      (QuantityArgs(Args(line), quantityOf) ==>
        r == RemoveFromCart(s, quantityOf(Args(line)[0]).value, Args(line)[1]))
  {
  }

  /** `search` searches exactly when it has one argument; otherwise it
      prints its usage. It never changes the session. */
  lemma SearchArguments(s: Session, line: string, quantityOf: string -> Option<int>)
    requires Command(line) == "search"
    ensures var r := Handle(s, line, quantityOf);
      r.session == s &&
      (r.reply == SearchUsage <==> |Args(line)| != 1) &&
      (|Args(line)| == 1 ==> r.reply == SearchFor(Args(line)[0]))
  {
  }

  /** A line of words without spaces, joined by single spaces, is read back
      as its first word and the rest. */
  lemma ParseLine(words: seq<string>, line: string)
    requires |words| >= 1
    requires forall i :: 0 <= i < |words| ==> ' ' !in words[i]
    requires line == Join(words, ' ')
    ensures Command(line) == words[0]
    ensures Args(line) == words[1..]
  {
    SplitJoin(words, ' ');
  }

  /* ------------------------------------------------------ add and remove */

  /** Units added cost their price each: after adding `quantity` units of a
      catalog product the balance covers, the cart total has grown by the
      price times the quantity. */
  lemma AddedTotal(s: Session, p: Product, quantity: nat, name: string)
    requires p in Products && SameName(p.name, name)
    requires p.price * quantity <= s.balance
    ensures Total(AddToCart(s, quantity, name).session.cart) == Total(s.cart) + p.price * quantity
  {
    FindAnyCase(p, name);
    TotalAppend(s.cart, Copies(p, quantity));
    TotalCopies(p, quantity);
  }

  /** A zero or negative quantity passes every check of addToCart: the
      reply says the units were added, yet the cart is unchanged. */
  lemma AddNonPositive(s: Session, p: Product, quantity: int, name: string)
    requires p in Products && SameName(p.name, name)
    requires quantity <= 0 && s.balance >= 0
    ensures AddToCart(s, quantity, name) == Step(s, Added(quantity, p))
  {
    FindAnyCase(p, name);
    NonPositiveCost(p.price, quantity);
    assert Copies(p, quantity) == [];
    assert s.cart + [] == s.cart;
  }

  /** A non-negative price times a non-positive quantity is never positive. */
  lemma NonPositiveCost(price: nat, quantity: int)
    requires quantity <= 0
    ensures price * quantity <= 0
  {
  }

  /** A catalog product is added under its name written in any case, as
      long as the balance covers the batch. */
  lemma AddAnyCase(s: Session, p: Product, quantity: int, name: string)
    requires p in Products && SameName(p.name, name)
    requires p.price * quantity <= s.balance
    ensures AddToCart(s, quantity, name) == Step(Session(s.cart + Copies(p, quantity), s.balance), Added(quantity, p))
  {
    FindAnyCase(p, name);
  }

  /** Removing the quantity just added, by the same name, restores the
      session: the units added are the newest, and removal takes the newest. */
  lemma AddThenRemove(s: Session, p: Product, quantity: nat, name: string)
    requires p in Products && SameName(p.name, name)
    requires p.price * quantity <= s.balance
    ensures RemoveFromCart(AddToCart(s, quantity, name).session, quantity, name) == Step(s, Removed(quantity, name))
  {
    FindAnyCase(p, name);
    RemoveUndoesAdd(s.cart, p, name, quantity);
  }

  /* -------------------------------------------------- displaying the cart */

  /** For a valid session each row shows the price of the units it counts,
      and the displayed total is the sum over the displayed rows of count
      times that price. */
  lemma ViewCartPrices(s: Session)
    requires Valid(s)
    ensures var r := ViewCart(s).reply;
      r.CartContents? ==>
        forall i, j :: 0 <= i < |r.lines| && 0 <= j < |s.cart| && s.cart[j].name == r.lines[i].name ==>
          r.prices[i] == s.cart[j].price
    ensures ViewCart(s).reply.CartContents? ==>
      ViewCart(s).reply.total == Sum(ViewCart(s).reply.lines, Cost(Products))
  {
    CatalogPrices(s.cart);
    TotalByLines(s.cart);
  }

  /* ------------------------------------------------------------ scenarios */

  /** Adding a batch of a catalog product whose cost the balance covers,
      written as a line `add <word> <name>`. */
  lemma AddLine(s: Session, line: string, word: string, name: string, p: Product, quantityOf: string -> Option<int>)
    requires ' ' !in word && ' ' !in name && line == Join(["add", word, name], ' ')
    requires quantityOf(word).Some?
    requires p in Products && SameName(p.name, name)
    requires p.price * quantityOf(word).value <= s.balance
    ensures Handle(s, line, quantityOf) ==
      Step(Session(s.cart + Copies(p, quantityOf(word).value), s.balance), Added(quantityOf(word).value, p))
  {
    ParseLine(["add", word, name], line);
    AddArguments(s, line, quantityOf);
    AddAnyCase(s, p, quantityOf(word).value, name);
  }

  /** The `buy` line. */
  lemma BuyLine(s: Session, quantityOf: string -> Option<int>)
    ensures Handle(s, "buy", quantityOf) == Buy(s)
  {
    ParseLine(["buy"], "buy");
  }

  /** Running two lines is handling one and then the other. */
  lemma RunTwo(s: Session, a: string, b: string, quantityOf: string -> Option<int>)
    ensures var one := Handle(s, a, quantityOf);
      var two := Handle(one.session, b, quantityOf);
      Run(s, [a, b], quantityOf) == Transcript(two.session, [one.reply, two.reply])
  {
    var one := Handle(s, a, quantityOf);
    var two := Handle(one.session, b, quantityOf);
    assert [b][1..] == [];
    assert Run(one.session, [b], quantityOf) == Transcript(two.session, [two.reply]);
    assert [a, b][1..] == [b];
  }

  /** Running three lines is handling the first and then running the other two. */
  lemma RunThree(s: Session, a: string, b: string, c: string, quantityOf: string -> Option<int>)
    ensures var one := Handle(s, a, quantityOf);
      var rest := Run(one.session, [b, c], quantityOf);
      Run(s, [a, b, c], quantityOf) == Transcript(rest.session, [one.reply] + rest.replies)
  {
    assert [a, b, c][1..] == [b, c];
  }

  /** The cart holding `n` bananas, with the opening balance. */
  function Bananas(n: nat): Session {
    Session(Copies(Product("Banana", 1000), n), OpeningBalance)
  }

  /** `add 2 Banana` at opening puts two bananas in the cart. */
  lemma AddTwoBananas(quantityOf: string -> Option<int>)
    requires quantityOf("2") == Some(2)
    ensures Handle(Opening, "add 2 Banana", quantityOf) == Step(Bananas(2), Added(2, Product("Banana", 1000)))
  {
    assert Join(["add", "2", "Banana"], ' ') == "add 2 Banana";
    AddLine(Opening, "add 2 Banana", "2", "Banana", Product("Banana", 1000), quantityOf);
  }

  /** `add 3 banana` on top of two bananas makes five. */
  lemma AddThreeBananas(quantityOf: string -> Option<int>)
    requires quantityOf("3") == Some(3)
    ensures Handle(Bananas(2), "add 3 banana", quantityOf) == Step(Bananas(5), Added(3, Product("Banana", 1000)))
  {
    var banana := Product("Banana", 1000);
    assert Join(["add", "3", "banana"], ' ') == "add 3 banana";
    AddLine(Bananas(2), "add 3 banana", "3", "banana", banana, quantityOf);
    CopiesJoin(banana, 2, 3);
  }

  /** Two bananas cost 20.00 of the 40.00; five cost more than that. */
  lemma BuyBananas(quantityOf: string -> Option<int>)
    ensures Handle(Bananas(2), "buy", quantityOf) == Step(Session([], 2000), Bought(2000, 2000))
    ensures Handle(Bananas(5), "buy", quantityOf) == Step(Bananas(5), CannotAfford)
  {
    var banana := Product("Banana", 1000);
    BuyLine(Bananas(2), quantityOf);
    BuyLine(Bananas(5), quantityOf);
    TotalCopies(banana, 2);
    TotalCopies(banana, 5);
  }

  /** Two bananas cost 20.00 of the opening 40.00: they are added and bought,
      leaving an empty cart and 20.00. */
  lemma BuyTwoBananas(quantityOf: string -> Option<int>)
    requires quantityOf("2") == Some(2)
    ensures Run(Opening, ["add 2 Banana", "buy"], quantityOf) ==
      Transcript(Session([], 2000), [Added(2, Product("Banana", 1000)), Bought(2000, 2000)])
  {
    AddTwoBananas(quantityOf);
    BuyBananas(quantityOf);
    RunTwo(Opening, "add 2 Banana", "buy", quantityOf);
  }

  /** Each batch is checked against the balance alone, not against what is
      already in the cart: five bananas in two batches fit, but the cart
      then costs more than the wallet holds and cannot be bought. */
  lemma OverfullCart(quantityOf: string -> Option<int>)
    requires quantityOf("2") == Some(2) && quantityOf("3") == Some(3)
    ensures Run(Opening, ["add 2 Banana", "add 3 banana", "buy"], quantityOf) ==
      Transcript(Bananas(5), [Added(2, Product("Banana", 1000)), Added(3, Product("Banana", 1000)), CannotAfford])
  {
    AddTwoBananas(quantityOf);
    AddThreeBananas(quantityOf);
    BuyBananas(quantityOf);
    RunTwo(Bananas(2), "add 3 banana", "buy", quantityOf);
    RunThree(Opening, "add 2 Banana", "add 3 banana", "buy", quantityOf);
  }

  /** The `cart` line. */
  lemma CartLine(s: Session, quantityOf: string -> Option<int>)
    ensures Handle(s, "cart", quantityOf) == ViewCart(s)
  {
    ParseLine(["cart"], "cart");
  }

  /** After buying, the cart is shown as empty. */
  lemma BoughtCartEmpty(quantityOf: string -> Option<int>)
    requires quantityOf("2") == Some(2)
    ensures Run(Opening, ["add 2 Banana", "buy", "cart"], quantityOf).replies ==
      [Added(2, Product("Banana", 1000)), Bought(2000, 2000), CartEmpty]
  {
    AddTwoBananas(quantityOf);
    BuyBananas(quantityOf);
    CartLine(Session([], 2000), quantityOf);
    RunTwo(Bananas(2), "buy", "cart", quantityOf);
    RunThree(Opening, "add 2 Banana", "buy", "cart", quantityOf);
  }

  /** Three apples, grouped as they are displayed. */
  lemma TallyThreeApples()
    ensures Tally(Copies(Product("Apple", 199), 3)) == [Line("Apple", 3)]
    ensures Total(Copies(Product("Apple", 199), 3)) == 597
    ensures RowPrices([Line("Apple", 3)]) == [199]
  {
    CatalogPrices([Product("Apple", 199)]);
    var apple := Product("Apple", 199);
    var c := Copies(apple, 3);
    assert c[..2] == Copies(apple, 2) && c[2] == apple;
    assert Copies(apple, 2)[..1] == [apple];
    assert [apple][..0] == [];
    assert Tally([apple]) == [Line("Apple", 1)];
    assert Tally(Copies(apple, 2)) == [Line("Apple", 2)];
    TotalCopies(apple, 3);
  }

  /** `add 3 Apple` at opening puts three apples in the cart. */
  lemma AddThreeApples(quantityOf: string -> Option<int>)
    requires quantityOf("3") == Some(3)
    ensures Handle(Opening, "add 3 Apple", quantityOf) ==
      Step(Session(Copies(Product("Apple", 199), 3), OpeningBalance), Added(3, Product("Apple", 199)))
  {
    assert Join(["add", "3", "Apple"], ' ') == "add 3 Apple";
    AddLine(Opening, "add 3 Apple", "3", "Apple", Product("Apple", 199), quantityOf);
  }

  /** Three apples are shown as one row of three, costing 5.97 in all. */
  lemma ShowThreeApples(quantityOf: string -> Option<int>)
    ensures var s := Session(Copies(Product("Apple", 199), 3), OpeningBalance);
      Handle(s, "cart", quantityOf) == Step(s, CartContents([Line("Apple", 3)], [199], 597))
  {
    var s := Session(Copies(Product("Apple", 199), 3), OpeningBalance);
    CartLine(s, quantityOf);
    TallyThreeApples();
  }

  /** `add 3 Apple` and then `cart` shows one row of three apples costing
      5.97 in all. */
  lemma ThreeApples(quantityOf: string -> Option<int>)
    requires quantityOf("3") == Some(3)
    ensures Run(Opening, ["add 3 Apple", "cart"], quantityOf).replies ==
      [Added(3, Product("Apple", 199)), CartContents([Line("Apple", 3)], [199], 597)]
  {
    AddThreeApples(quantityOf);
    ShowThreeApples(quantityOf);
    RunTwo(Opening, "add 3 Apple", "cart", quantityOf);
  }

  /** A hundred apples cost more than the opening balance and are refused. */
  lemma TooManyApples(quantityOf: string -> Option<int>)
    requires quantityOf("100") == Some(100)
    ensures Handle(Opening, "add 100 Apple", quantityOf) ==
      Step(Opening, Insufficient(100, Product("Apple", 199)))
  {
    ParseLine(["add", "100", "Apple"], "add 100 Apple");
    FindAnyCase(Product("Apple", 199), "Apple");
  }

  /** Removing from an empty cart removes nothing and says so. */
  lemma RemoveFromEmptyCart(quantityOf: string -> Option<int>)
    requires quantityOf("5") == Some(5)
    ensures Handle(Opening, "remove 5 Apple", quantityOf) == Step(Opening, Removed(0, "Apple"))
  {
    var line := "remove 5 Apple";
    ParseLine(["remove", "5", "Apple"], line);
    RemoveArguments(Opening, line, quantityOf);
    assert Handle(Opening, line, quantityOf) == RemoveFromCart(Opening, 5, "Apple");
  }

  /** A first word that names no command is reported back and changes nothing. */
  lemma UnknownCommandLine(s: Session, line: string, quantityOf: string -> Option<int>)
    requires Command(line) !in {"help", "list", "balance", "search", "add", "remove", "cart", "buy"}
    ensures Handle(s, line, quantityOf) == Step(s, UnknownCommand(Command(line)))
  {
  }

  /** `checkout now` is no command. */
  lemma UnknownWord(s: Session, quantityOf: string -> Option<int>)
    ensures Handle(s, "checkout now", quantityOf) == Step(s, UnknownCommand("checkout"))
  {
    ParseLine(["checkout", "now"], "checkout now");
    UnknownCommandLine(s, "checkout now", quantityOf);
  }

  /** `search` followed by a single space has one empty argument, and the
      empty term matches the whole catalog. */
  lemma SearchBlank(s: Session, quantityOf: string -> Option<int>)
    ensures Handle(s, "search ", quantityOf) == Step(s, Found(Products))
  {
    ParseLine(["search", ""], "search ");
    SearchEmptyTerm();
  }

  /** `search pe` lists Peach and Pear; `search` with no term prints its usage. */
  lemma SearchPeach(s: Session, quantityOf: string -> Option<int>)
    ensures Handle(s, "search pe", quantityOf).reply == Found([Product("Peach", 599), Product("Pear", 249)])
    ensures Handle(s, "search", quantityOf).reply == SearchUsage
  {
    ParseLine(["search", "pe"], "search pe");
    ParseLine(["search"], "search");
    SearchPe();
  }
}
