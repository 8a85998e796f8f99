# Purchase-request registry, modelled in Dafny

The repository holds three versions of one console program. Each one lets a person register
purchase requests and list them. A request has an applicant, an item name, a quantity, a price
and a purchase link. The store holds at most five requests. Without the console, two pieces of
logic remain, and both are modelled here:

- **a bounded, append-only item store.** It is an array of fixed length plus a counter. `save`
  writes into the next free slot while there is room. `findAll` copies the filled prefix into a
  fresh array. `isFull` compares the counter with the array length.
- **a purchase-link validator.** The link must start with `http://` or `https://`, and it must
  name `11st.co.kr` or `coupang.com`. The two answer versions look for the shop name in the
  lower-cased link. `Stock.java` looks for it in the link exactly as typed.

Besides these, the model covers the menu of the two answer versions: the trimmed input line
selects register, view, exit or "invalid input", and registration on a full store stops before
any prompt.

Layout, one module per concern:

| file | module | what it holds |
|---|---|---|
| `strings.dfy` | `Strings` | `startsWith`, `contains`, ASCII lower-casing and `trim`, each with a reference definition and lemmas that connect the two |
| `links.dfy` | `Links` | the link rule, written once with a flag for whether the shop test folds case; sample links |
| `storage.dfy` | `Storage` | the store as a value (`Offer`, `OfferAll`) and its lemmas; `CopyPrefix`, the model of `System.arraycopy` into a new array |
| `menu.dfy` | `Menu` | menu commands, loop outcomes and `Dispatch` on the trimmed line |
| `java_types.dfy` | `JavaTypes` | `Int32` and `Int64` for the `Integer` and `Long` fields |
| `stock_answer.dfy` | `StockAnswer` | `Item`, `ItemRepository`, `ItemService`, `InputValidator.isValidLink`, `ItemController` |
| `stock_answer1.dfy` | `StockAnswer1` | `Item1`, `MemoryItemStore`, `Validator.isValidLink`, one pass of the main loop |
| `stock.dfy` | `Stock` | `Item`, `Store` (capacity 5), `Checker.check`, and how the two link rules compare |

Each store is a class. It has a `const` array field (the Java field is `final`) and a mutable
counter. `Valid()` states `count <= items.Length`, and the ghost function `Contents()` is the
filled prefix. Each `save` method is proved against the value-level `Storage.Offer`. The
lemmas about `Storage.OfferAll` then describe any sequence of saves.

Two facts about the code that the contracts make explicit:

- `startsWith` is case-sensitive (StockAnswer.java:106), so `HTTPS://COUPANG.COM/x` is refused
  for its scheme (`StockAnswer.UpperCaseSchemeRefused`), although its shop name would pass the
  lower-cased test.
- `isFull` tests `count >= items.length`. Under `Valid()` this equals `count == capacity`, the
  form the `IsFull` contracts state.

## Model

| member | source | states |
|---|---|---|
| `StockAnswer.ItemRepository.constructor` | 2/src/answer/StockAnswer.java:44-46 | a new repository is valid and empty, and its array is fresh with `capacity` slots |
| `StockAnswer.ItemRepository.Save` | 2/src/answer/StockAnswer.java:49-53 | returns true exactly when `count < capacity`; then the item sits at index `count` and `count` grows by one; otherwise count and every slot are unchanged; the invariant `count <= capacity` is kept; contents become `Storage.Offer` of the old contents |
| `StockAnswer.ItemRepository.FindAll` | 2/src/answer/StockAnswer.java:56-60 | returns a fresh array equal to the stored items in insertion order, and changes nothing |
| `StockAnswer.ItemRepository.IsFull` | 2/src/answer/StockAnswer.java:63-65 | true exactly when the number of stored items equals the capacity |
| `StockAnswer.ItemService.constructor` | 2/src/answer/StockAnswer.java:77-79 | the service keeps a reference to the given repository, so it works on the caller's store and not on a copy |
| `StockAnswer.ItemService.RegisterItem` | 2/src/answer/StockAnswer.java:82-85 | builds the item from the five fields and returns exactly what `save` returns, with the same effect on the contents |
| `StockAnswer.ItemService.GetAllItems` | 2/src/answer/StockAnswer.java:88-90 | returns a fresh copy of the repository's contents |
| `StockAnswer.ItemService.IsFull` | 2/src/answer/StockAnswer.java:93-95 | equals the repository's fullness |
| `StockAnswer.IsValidLink` | 2/src/answer/StockAnswer.java:105-116 | wrong scheme exactly when the link starts with neither `http://` nor `https://`, whatever shop it names; accepted exactly when the scheme is right and the lower-cased link contains `11st.co.kr` or `coupang.com` |
| `StockAnswer.UpperCaseSchemeRefused` | 2/src/answer/StockAnswer.java:106-109 | `HTTPS://COUPANG.COM/x` fails the scheme test: only the shop test folds case |
| `StockAnswer.ItemController.constructor` | 2/src/answer/StockAnswer.java:129-132 | a controller over an empty repository starts valid |
| `StockAnswer.ItemController.Step` | 2/src/answer/StockAnswer.java:135-202 | one menu selection. "1" on a full store yields the "maximum" outcome and saves nothing. "1" otherwise appends the new request and reports success. The "registration failed" branch is never taken. "2" lists the stored items in order, or reports that there are none. "3" exits. Anything else is invalid input. Only "1" changes the store, and every stored link passes `isValidLink` |
| `StockAnswer1.MemoryItemStore.constructor` | 2/src/answer/StockAnswer1.java:42-44 | a new store is valid and empty with `capacity` fresh slots |
| `StockAnswer1.MemoryItemStore.Save` | 2/src/answer/StockAnswer1.java:47-51 | true exactly when there is room; then the item lands at index `count` and `count` grows by one; on a full store nothing changes |
| `StockAnswer1.MemoryItemStore.FindAll` | 2/src/answer/StockAnswer1.java:54-58 | a fresh array holding exactly the first `count` items in insertion order |
| `StockAnswer1.MemoryItemStore.IsFull` | 2/src/answer/StockAnswer1.java:61-63 | true exactly when the store holds `items.length` items; `count` never exceeds `items.length` (the invariant) |
| `StockAnswer1.IsValidLink` | 2/src/answer/StockAnswer1.java:68-79 | rejects any link without an `http://` or `https://` prefix; accepts a prefixed link exactly when its lower-cased form contains `11st.co.kr` or `coupang.com` |
| `StockAnswer1.MenuStep` | 2/src/answer/StockAnswer1.java:94-145 | one pass of the main loop. Option "1" on a full store saves nothing and leaves store and array unchanged. Otherwise "1" appends the request. "2" lists the items in order or reports none. "3" exits. Anything else is invalid input. The failure message is unreachable |
| `Stock.Check` | 2/src/Stock.java:95-105 | wrong scheme exactly when the link starts with neither `http://` nor `https://`; accepted exactly when the scheme is right and the link as typed (case-sensitive) contains `11st.co.kr` or `coupang.com` |
| `Stock.CheckAcceptedIsValidLink` | 2/src/Stock.java:99 | every link `Checker.check` accepts is accepted by `InputValidator.isValidLink` |
| `Stock.IsValidLinkAcceptsMore` | 2/src/Stock.java:99-101 | the converse fails: `http://COUPANG.COM` is accepted by `isValidLink` and refused by `check` with the shop message |
| `Stock.Store.constructor` | 2/src/Stock.java:109-110 | a new store has five fresh slots and holds nothing |
| `Stock.Store.SaveItem` | 2/src/Stock.java:112-115 | with `size < 5` the item is written at index `size` and `size` grows by one; with `size >= 5` size and array are unchanged; `size <= 5` is kept |
| `Stock.Store.GetItem` | 2/src/Stock.java:117-121 | returns a fresh array of length `size` equal to `items[0..size)` in order |
| `Stock.Store.GetSize` | 2/src/Stock.java:123-125 | returns the number of stored items, which is at most 5, and has no effect |
| `Links.Validate` | 2/src/answer/StockAnswer.java:105-116 | the shared rule: the scheme test runs first and short-circuits; the shop test runs on the lower-cased or the raw link; each outcome is characterised by prefix and occurrence |
| `Links.FtpLinkRefused` | 2/src/answer/StockAnswer.java:106-109 | `ftp://coupang.com/x` is refused for its scheme, in every version |
| `Links.ForeignShopRefused` | 2/src/answer/StockAnswer.java:110-114 | `https://example.com` is refused for its shop, in every version |
| `Links.CoupangLinkAccepted` | 2/src/answer/StockAnswer.java:110-115 | `https://www.coupang.com/item/1` is accepted, in every version |
| `Links.ElevenStreetLinkAccepted` | 2/src/answer/StockAnswer.java:110-115 | `http://www.11st.co.kr/product/2` is accepted, in every version |
| `Strings.StartsWith` | 2/src/answer/StockAnswer.java:106 | the character-by-character test is true exactly when the pattern is a prefix of the text |
| `Strings.Contains` | 2/src/answer/StockAnswer.java:111 | `String.contains`: the left-to-right search succeeds exactly when the pattern occurs at some index of the text |
| `Strings.LowerAscii` | 2/src/answer/StockAnswer.java:110 | `toLowerCase` on ASCII letters: same length, no ASCII capital left, each capital replaced by its small letter, every other character unchanged |
| `Strings.OccursLowered` | 2/src/answer/StockAnswer.java:110-111 | an occurrence of an already lower-case pattern survives lower-casing of the text |
| `Strings.Trim` | 2/src/answer/StockAnswer.java:138 | the result is no longer than the input, and neither end of it is a character up to U+0020 |
| `Strings.TrimPadded` | 2/src/answer/StockAnswer.java:138 | trimming removes exactly the blank padding around a trimmed core |
| `Menu.Dispatch` | 2/src/answer/StockAnswer.java:138-148 | after Java's `trim`, `1`/`2`/`3` select register/view/exit, and anything else is invalid |
| `Menu.DispatchIgnoresPadding` | 2/src/answer/StockAnswer.java:138-148 | blank padding around a menu key does not change the selection |
| `Menu.DispatchKeys` | 2/src/answer/StockAnswer.java:140-147 | "1", "2" and "3" select register, view and exit; " 1\t" selects register; "4" is invalid |
| `Storage.OfferAllKeepsEarliest` | 2/src/answer/StockAnswer.java:49-53 | after any sequence of saves the store holds the earliest offers in order, cut at the capacity |
| `Storage.FillsAfterExactlyCapacity` | 2/src/answer/StockAnswer.java:49-65 | starting empty, the store holds the first `c` offers and is full exactly when at least `c` items were offered |
| `Storage.CopyPrefix` | 2/src/answer/StockAnswer.java:57-58 | copies the first `n` elements into a fresh array of length `n` |

## Left out

- Console I/O is not modelled: the menu text, the prompts, the printed messages and
  `Scanner.close`. A loop pass returns a `Menu.Outcome` value in place of the message it prints.
  A failed link check returns a `Links.LinkCheck` value in place of the message it prints.
- The numeric re-prompt loops are not modelled. These are `readInteger`, `readLong` and
  `Stock.input`, which rely on `Integer.valueOf`, `Long.valueOf` and `Scanner.nextInt`. They
  retry forever on outside input, and the library parsers are not part of this model. The step
  methods take the parsed quantity and price as parameters.
- The `do … while (!isValidLink(link))` loops are not modelled. The step methods take the link
  that such a loop accepted, and require it to be valid. That is what the loop guarantees on
  exit.
- StockAnswer.ItemController.Step: requires a valid link for every menu line, although only the
  "1" branch reads the link.
- StockAnswer1.MenuStep: requires a valid link for every menu line, for the same reason.
- The applicant, item name and link that the step methods take stand for the prompted lines
  after `trim` (StockAnswer.java:169, 172 and 181; StockAnswer1.java:105, 108 and 116). The
  model stores them as given and does not trim them again.
- Rendering (`toString`, `Item.getItem`, `String.format`) is not modelled. It is library
  formatting and decides nothing.
- The `Stock.java` main loop is not modelled. It compares strings with `==` (lines 15, 40
  and 49), which is reference identity and has no counterpart on Dafny values. It also has a
  dangling `if` at line 49. Its `getSize()==5` guard is left out with it.
- StockAnswer.IsValidLink: lower-casing covers ASCII letters only. Java's locale-aware
  `toLowerCase` also maps some non-ASCII characters. For example, the Kelvin sign U+212A maps to
  `k`, so Java accepts `https://11st.co.Kr` (spelled with the Kelvin sign) and the model
  refuses it.
- StockAnswer1.IsValidLink: ASCII-only lower-casing, as for `StockAnswer.IsValidLink`.
- StockAnswer.ItemRepository.constructor: requires a non-negative capacity. Java throws
  `NegativeArraySizeException` for a negative one, and the only caller passes 5.
- StockAnswer1.MemoryItemStore.constructor: requires a non-negative capacity, for the same reason.
- Java `null` is not modelled. That covers a null item, link or capacity, and the null values in
  unused array slots. Unused slots hold a default item instead, and only the filled prefix is
  ever read.
- The `ItemStore` interface adds no behaviour. Its only implementation, `MemoryItemStore`, is
  modelled directly.
- The `main` wiring (`new ItemRepository(5)`, `new MemoryItemStore(5)`) is not modelled as a
  member. The constructors take the capacity that `main` passes.
- The message that `Stock.Store.saveItem` prints on a full store is not modelled. The method
  returns nothing, and the model keeps only its effect.
- End of input (`NoSuchElementException` from `nextLine`) is not modelled.
