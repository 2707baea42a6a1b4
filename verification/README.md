# store-cli in Dafny

A model of the in-memory logic of the store-cli command-line storefront
(`main.js`). The store has three parts:

- a fixed catalog of eight products;
- a wallet that opens at 40.00 euro;
- a cart that holds one entry per unit.

The user types lines. The handler splits a line at single spaces and dispatches on the first word:

- `help`, `list` and `balance` only print;
- `search <term>` lists the products whose names start with the term, ignoring case;
- `add <quantity> <name>` appends units when the wallet covers them;
- `remove <quantity> <name>` takes out units, newest first;
- `cart` shows the units grouped per name, with the total;
- `buy` pays for the whole cart and empties it, or refuses.

The model keeps the store's own structure:

- `Wrappers` holds the optional value.
- `Seqs` holds the two array helpers the store leans on, `findIndex`/`find` and `filter`.
- `Text` holds ASCII lower-casing and the single-space `split`, with its inverse `Join`.
- `Catalog` holds the products, the case-insensitive lookup, the exact lookup and the prefix search.
- `Cart` holds:
  - adding batches of units;
  - removing newest first, both as a function and as the splice loop of the source;
  - the per-name counting of the cart display;
  - totals.
- `Store` holds:
  - the session (cart and balance);
  - the five commands that touch the store;
  - the line handler with its argument checks;
  - a `Run` over a sequence of lines.

Prices and the balance are whole euro cents (Apple 199, Banana 1000, …, opening balance 4000).
Each command returns the next session and a `Reply` that stands for what the store prints.

Two behaviours of the source are worth knowing when reading the model:

- **Quantity in `add`.** Any integer that passes the numeric check is accepted. A zero or negative quantity is reported as added while nothing is appended, and the affordability check always passes for it (`Store.AddNonPositive`).
- **Price lookup in the cart display** compares names exactly (`main.js:113`). Each row of the model's cart reply carries the price that lookup (`Catalog.FindExact`) finds, stated in the contract of `Store.ViewCart`.

## Model

| member | source | states |
|---|---|---|
| Seqs.FindIndex | main.js:58-61 | -1 exactly when no element passes the test; otherwise the first position whose element passes it |
| Seqs.FindFirstAtIndex | main.js:113 | `find` yields the element at the position `findIndex` reports, and nothing when that position is -1 |
| Seqs.Filter | main.js:143-145 | every element kept passes the test, and no more elements come out than went in |
| Seqs.FilterAppend | main.js:143-145 | filtering a concatenation is the concatenation of the filtered parts, so nothing is reordered |
| Text.LowerChar | main.js:59 | an upper-case ASCII letter becomes the same letter in lower case; every other character is unchanged; no upper-case letter comes out |
| Text.Split | main.js:191 | a line always splits into at least one field, and no field contains the separator |
| Text.JoinSplit | main.js:191 | joining the fields of a split with single spaces gives back the line exactly, empty fields included |
| Text.SplitJoin | main.js:191 | splitting space-free words joined by single spaces gives back exactly those words |
| Catalog.Find | main.js:58-62 | not found exactly when no catalog name equals the name ignoring case; otherwise a catalog product whose name equals it ignoring case |
| Catalog.NamesDistinct | main.js:9-42 | no two catalog names are equal ignoring case |
| Catalog.FindAnyCase | main.js:58-62 | every catalog product is found by its name written in any mix of cases |
| Catalog.FindExactFinds | main.js:113 | the exact lookup finds nothing exactly when no product has that name; otherwise it finds a catalog product with exactly that name |
| Catalog.FindExactOwnName | main.js:113 | every catalog product is found by its own name |
| Catalog.Search | main.js:143-145 | every product listed is in the catalog, and its lower-cased name starts with the lower-cased term |
| Catalog.SearchInCatalogOrder | main.js:143-145 | the results are the catalog read at strictly increasing positions, and every product whose name matches is among them |
| Catalog.SearchEmptyTerm | main.js:143-145 | an empty term lists the whole catalog in catalog order |
| Catalog.SearchPe | main.js:143-145 | the term "pe" finds Peach and then Pear, nothing else |
| Cart.CopiesJoin | main.js:69-73 | a batch of `a` units followed by a batch of `b` units is a batch of `a + b` units |
| Cart.RemoveNewest | main.js:81-91 | the number removed is the smaller of the quantity and the matching units (none for a non-positive quantity), and the cart shrinks by exactly that number |
| Cart.RemoveNewestTakesNewest | main.js:85-91 | the removal leaves the cart before some point untouched and takes out every matching unit after it, exactly as many as reported |
| Cart.RemovesNewestKeepsEarliest | main.js:85-91 | a newest-first removal keeps every unit of other names, in order, and keeps the earliest matching units |
| Cart.RemovesNewestKeepsOwnUnits | main.js:85-91 | every unit left after a removal was in the cart before it |
| Cart.RemoveUndoesAdd | main.js:69-91 | removing as many units as were just appended, by a name matching them, takes exactly those units out and reports that many |
| Cart.ScanStep | main.js:85-90 | one pass of the backward loop keeps its state: a matching unit is spliced out and counted, any other unit stays |
| Cart.ScanStop | main.js:85-91 | wherever the loop stops it has done a newest-first removal; off the front of the cart it has removed every matching unit |
| Cart.RemovesNewestUnique | main.js:85-91 | a newest-first removal of a given number of units leaves one cart only, whichever split point witnesses it |
| Cart.RemoveInPlace | main.js:81-91 | the splice loop reports the smaller of the quantity and the matching units, does a newest-first removal, and leaves the same cart as `Cart.RemoveNewest` |
| Cart.BumpExisting | main.js:103-105 | counting one more unit whose name already has a row keeps the cart grouped |
| Cart.BumpFresh | main.js:103-105 | counting the first unit of a name that has no row yet keeps the cart grouped |
| Cart.TallyGroups | main.js:102-106 | the counting loop gives one row per distinct name; each row counts that name's units; every unit has a row; rows follow the names' first occurrences |
| Cart.TallySize | main.js:102-106 | the row counts add up to the number of units in the cart |
| Cart.TotalAppend | main.js:108 | the total of two carts joined is the sum of their totals |
| Cart.TotalCopies | main.js:63-73 | the `n` units appended cost `n` times the price, the amount the affordability check compared |
| Cart.CostStep | main.js:103-105 | counting one more unit raises the rows' value by that name's unit price |
| Cart.TotalByPrice | main.js:108-114 | when every unit is priced by name as the lookup prices it, the total equals the sum over rows of count times unit price |
| Cart.PriceInIsFindExact | main.js:113 | the row price used in totals is the price of the product the exact-name lookup finds, and 0 when it finds none |
| Cart.CatalogPrices | main.js:113-114 | the exact lookup prices every catalog unit at its own price |
| Cart.TotalByLines | main.js:108-114 | for a cart of catalog products, the total shown equals the sum over the rows shown of count times catalog price |
| Store.SearchFor | main.js:142-157 | "no products" exactly when nothing matches; otherwise all the matches |
| Store.AddToCart | main.js:57-79 | not found exactly when no catalog name matches ignoring case; a batch that costs more than the balance is refused and nothing changes; otherwise exactly `quantity` units of the found product are appended after the unchanged cart; the balance never moves |
| Store.RemoveFromCart | main.js:81-94 | reports the name as typed and the smaller of the quantity and the matching units; takes out those newest matching units; the balance never moves |
| Store.ViewCart | main.js:96-117 | nothing changes; an empty cart is reported as empty; any other cart shows its grouping, row counts adding up to the units, beside each row the price the exact-name lookup finds, and the total of unit prices |
| Store.Buy | main.js:121-140 | an empty cart buys nothing; a purchase happens exactly when the total is within the balance; a purchase empties the cart, debits the total and leaves a non-negative balance; otherwise nothing changes |
| Store.Handle | main.js:190-240 | commands other than add, remove and buy change nothing; the balance never rises, and it changes only on buy, which empties the cart and debits its total |
| Store.Run | main.js:190-242 | one reply per line, and the balance never rises over a run |
| Store.AddKeepsValid | main.js:57-79 | adding keeps the balance non-negative and the cart made of catalog products |
| Store.RemoveKeepsValid | main.js:81-91 | removing keeps the balance non-negative and the cart made of catalog products |
| Store.HandleKeepsValid | main.js:190-240 | every command keeps the balance non-negative and the cart made of catalog products |
| Store.RunKeepsValid | main.js:190-242 | any sequence of lines keeps the balance non-negative and the cart made of catalog products |
| Store.RunFromOpening | main.js:6-7 | from the opening session, whatever is typed, the balance stays between 0 and 40.00 and the cart holds catalog products only |
| Store.AddArguments | main.js:212-220 | `add` prints its usage exactly when it does not have exactly two arguments or the first is not a number, and then changes nothing; otherwise it runs addToCart on the parsed quantity and the name |
| Store.RemoveArguments | main.js:221-229 | `remove` prints its usage exactly when it does not have exactly two arguments or the first is not a number, and then changes nothing; otherwise it runs removeFromCart |
| Store.SearchArguments | main.js:205-211 | `search` prints its usage exactly when it does not have one argument; it never changes the session |
| Store.ParseLine | main.js:191-193 | a line of space-free words is read as its first word for the command and the rest for the arguments |
| Store.AddedTotal | main.js:63-73 | adding `n` units of a catalog product the balance covers grows the cart total by exactly the price times `n` |
| Store.AddNonPositive | main.js:63-74 | a zero or negative quantity of a catalog product is reported as added, yet the session is unchanged |
| Store.AddAnyCase | main.js:57-75 | a catalog product named in any case is appended when the balance covers the batch |
| Store.AddThenRemove | main.js:57-94 | removing, by the same name, the `n` units of a catalog product just added restores the session and reports `n` removed |
| Store.ViewCartPrices | main.js:108-117 | for a valid session every row shows the price of each unit it counts, and the total shown equals the sum over the rows of count times that price |
| Store.UnknownCommandLine | main.js:236-239 | a first word that is no command is reported back and changes nothing |
| Store.BuyTwoBananas | main.js:121-134 | at opening, `add 2 Banana` then `buy` spends 20.00 and leaves 20.00 and an empty cart |
| Store.BoughtCartEmpty | main.js:127-129 | after that purchase `cart` reports an empty cart |
| Store.OverfullCart | main.js:63-64 | batches are checked against the balance alone: 2 and then 3 bananas are both added, and the 50.00 cart cannot be bought |
| Store.ThreeApples | main.js:102-117 | `add 3 Apple` then `cart` shows one row of three apples at 1.99 and a total of 5.97 |
| Store.TooManyApples | main.js:63-67 | a hundred apples cost more than the opening balance and are refused |
| Store.RemoveFromEmptyCart | main.js:85-93 | removing from an empty cart removes none and says so |
| Store.UnknownWord | main.js:236-239 | `checkout now` is reported as the unknown command `checkout` |
| Store.SearchBlank | main.js:205-211 | `search` followed by one space searches for the empty term and lists the whole catalog |
| Store.SearchPeach | main.js:142-157 | `search pe` lists Peach and Pear; `search` without a term prints its usage |

## Left out

- The readline interface is not modelled: the prompt, the welcome and exit messages, `close` and `process.exit` (`main.js:180-188`, `main.js:242-246`). Lines arrive as a sequence (`Store.Run`) instead.
- Printed text is not modelled. Each command yields an abstract `Reply`. The help text (`main.js:159-178`) and the catalog listing (`main.js:44-51`) have no further logic.
- Floating-point money is not modelled. Prices and the balance are decimal euros held in binary floating point; the model keeps exact integer cents. Rounding in products, sums and comparisons, and the `toFixed(2)` formatting, are not modelled.
- Lower-casing covers only ASCII `A`-`Z` (`Text.LowerChar`). JavaScript's `toLowerCase` also folds non-ASCII letters. The catalog names are all ASCII.
- The numeric check and integer parse of a quantity word (`isNaN`, then `parseInt`, `main.js:213-218` and `main.js:222-227`) become the parameter `quantityOf` of `Store.Handle`. `None` means the word fails the check. Some words pass the check but do not parse, so the parsed quantity is NaN: every word that `Number()` accepts but whose first character after leading whitespace and an optional sign is not a digit. These are the empty word, words made only of whitespace other than the space (a tab, say), words whose number begins with a decimal point (`.5`, `-.5`, `+.5e1`), and `Infinity` with or without a sign. A NaN quantity fails every comparison, so such a word adds and removes nothing, like quantity 0, and `quantityOf` should map it to `Some(0)`. The reply is not quite the same: `remove` prints 0 removed, as `Removed(0, name)` says, but `add` prints `NaN <name>(s) added to the cart.` (`main.js:74`), where the model's reply says `Added(0, p)`.
- Looking up a cart unit's price in `displayCart` would fail on a unit missing from the catalog (`main.js:113-114`). `Store.HandleKeepsValid` shows no such unit ever reaches the cart. The model's row price is 0 in that case (`Cart.PriceIn`).
- The ordered `Map` of `displayCart` is modelled as a sequence of rows in insertion order (`Cart.Tally`).

No contract is stated weaker than the source promises.
