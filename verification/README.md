# Demo shop script: cart, contact check and product search, in Dafny

This project models the logic inside `script.js`, the client-side script of a
small demo shop. Most of the script wires buttons and forms to the page. The
parts with behaviour that can be stated are these:

- **The cart.** It is an ordered list of line items `{id, name, price, qty}`
  kept in one local-storage key. `getCart` reads the list. A missing key or
  text that does not parse reads as the empty cart. `addToCart` bumps the
  line with the same id or appends a new line. `removeFromCart` filters the
  list by id. `clearCart` deletes the key. The quantity field of each table
  row stores `Number(value) || 1`. The header badge shows the sum of the
  quantities.
- **The contact form check.** The name, email and message are each trimmed
  and checked: name length at least 2 (`length` counts UTF-16 code units), email matching
  `^[^\s@]+@[^\s@]+\.[^\s@]+$`, message length at least 10. Each failing
  check fills its own error slot. When all pass, a success notice is shown
  and the form is reset.
- **The product search.** The query is trimmed and lower-cased. An empty
  query only asks for a term. Otherwise each card is shown exactly when its
  lower-cased title contains the query, and the number of shown cards is
  reported.

Modules, one per component:

- `Wrappers` (`wrappers.dfy`): `Option`, standing for `undefined`.
- `Text` (`text.dfy`): `trim`, `length` in UTF-16 code units, ASCII
  `toLowerCase`, `includes` and first-index search.
- `Numbers` (`numbers.dfy`): `Number(text)` on integer literals, and the
  decimal rendering that it inverts.
- `Cart` (`cart.dfy`): line items and the pure meaning of each cart
  operation, with the lemmas about them.
- `CartStorage` (`cart_storage.dfy`): the storage slot (`Absent`, `Corrupt`
  or `Stored(list)`), a `CartStore` class whose methods read and rewrite it
  as the script does, and the `find` loop.
- `Contact` (`contact.dfy`): the email pattern and a direct test for it,
  the validation with its `ok` flag, and a `ContactForm` class for the
  submit handler.
- `Search` (`search.dfy`): card titles, the filter loop over the cards'
  display flags, and the submit handler.

Representation choices:

- A quantity is an `int`. The value 0 stands for every falsy quantity: 0
  itself, or a missing `qty`. The script treats these alike (`qty || 1`,
  `qty || 0`).
- An `id` is a string. The empty string is the falsy id.
- The argument of `addToCart` is an `Option<Product>`. `None` is a missing
  item.
- `price` is carried along as a `real` and never computed with.

The cart's invariant is that no id occurs on two lines. Every cart operation
keeps it.

Some of what the page suggests is not what the script enforces, and the
model follows the script:

- The quantity field is declared with `min = 1` (script.js:171), yet the
  change handler stores `Number(v) || 1` (script.js:175). That keeps
  negative entries, so `"-1"` gives -1 (see `Cart.QtyOfNegative`). Only 0,
  the empty text and NaN become 1.
- Quantities are therefore not always at least 1. A repeat add on a line
  with quantity -1 gives `(-1 || 1) + 1`, which is 0, so the model states
  no such invariant.
- `removeFromCart` and the quantity handler always write the list back. On
  a missing or corrupt key, removing therefore stores an empty list
  instead of leaving the key alone.

## Model

| member | source | states |
|---|---|---|
| `CartStorage.CartStore.GetCart` | script.js:103-108 | a missing or unparseable slot reads as the empty cart; a stored list reads as itself |
| `CartStorage.Load` | script.js:103-108 | what `getCart` returns for a slot: the stored list, or the empty list for a missing or unparseable key; `GetCart` is proved to return it |
| `CartStorage.CartStore.SaveCart` | script.js:109-110 | the whole list replaces whatever the slot held, and reads back unchanged |
| `CartStorage.FindIndex` | script.js:117 | the scan returns the first line with the id, or none when no line has it |
| `Cart.Find` | script.js:117 | the result is the index of the first line with the id, and it is None exactly when no line has the id |
| `CartStorage.CartStore.AddToCart` | script.js:114-123 | a missing item or falsy id leaves the slot untouched; otherwise the slot holds the added cart; unique ids stay unique |
| `Cart.AddExisting` | script.js:117-119 | a repeat add sets that line's quantity to `(qty or 1) + 1` and keeps the length and every other line |
| `Cart.AddNew` | script.js:120-121 | a new id is appended at the end with quantity 1, after the old lines in their order |
| `Cart.AddTwice` | script.js:117-121 | adding the same new product twice gives one line with quantity 2 |
| `Cart.AddPreservesUnique` | script.js:117-122 | adding keeps every id on at most one line |
| `Cart.FindAppended` | script.js:117 | after appending a line with a fresh id, `find` locates it at the end |
| `Cart.AddItem` | script.js:114-123 | the list `addToCart` saves grows by at most one line; `AddExisting`, `AddNew` and `AddPreservesUnique` say which line changes and that ids stay unique |
| `Cart.OrOne` | script.js:119 | `q or 1` is never 0 and keeps any non-zero quantity |
| `CartStorage.CartStore.RemoveFromCart` | script.js:127-131 | the slot holds the filtered cart; the id is gone; an absent id leaves the cart as it was; unique ids stay unique |
| `Cart.Without` | script.js:129 | the filtered list is never longer than the cart; `WithoutMembers` and `WithoutAppend` say which lines survive and in what order |
| `Cart.WithoutMembers` | script.js:129 | a line survives exactly when it was in the cart and its id differs |
| `Cart.WithoutAppend` | script.js:129 | the filter distributes over concatenation, so the surviving lines keep their order |
| `Cart.WithoutAbsent` | script.js:129 | removing an id no line carries leaves the cart unchanged |
| `Cart.WithoutRemovesId` | script.js:129 | no line with the id remains |
| `Cart.WithoutPreservesUnique` | script.js:129 | removal keeps ids unique |
| `Cart.WithoutAt` | script.js:129 | removing the id held only by line k drops line k and nothing else |
| `CartStorage.CartStore.ClearCart` | script.js:132-133 | the key is deleted and the next load, and so the count, is empty |
| `Cart.Count` | script.js:140 | the badge count, the sum of the quantities with a missing one read as 0; the `Count` lemmas below state how each cart operation changes it |
| `Cart.CountAppend` | script.js:140 | the count of a concatenation is the sum of the counts |
| `Cart.CountUpdate` | script.js:140 | changing one line's quantity changes the count by the difference |
| `Cart.CountAround` | script.js:140 | the count is the count before a line, plus its quantity, plus the count after it |
| `Cart.CountAdd` | script.js:140 | adding raises the count by 1, or by 2 when the repeated line's quantity was missing |
| `Cart.CountRemove` | script.js:140 | removing a unique id lowers the count by that line's quantity |
| `Cart.CountSetQty` | script.js:140 | a quantity edit changes the count by the new minus the old quantity |
| `Cart.UniqueAround` | script.js:117-122 | in a cart with unique ids, a line's id occurs neither before nor after it |
| `Cart.QtyFromInput` | script.js:175 | the stored quantity is never 0 |
| `Cart.QtyFromShown` | script.js:172-175 | a field showing `String(n)` gives back `n`, except that 0 gives 1 |
| `Cart.QtyOfBlank` | script.js:175 | an empty or blank field gives 1 |
| `Cart.QtyOfZero` | script.js:175 | a zero entry gives 1 |
| `Cart.QtyOfText` | script.js:175 | under this model's integer-only `Number`, an entry whose trimmed text does not start with a sign or digit is NaN and gives 1 |
| `Cart.QtyOfNegative` | script.js:175 | a negative entry is kept: `"-1"` gives -1 |
| `Cart.SetQty` | script.js:174-176 | a quantity edit keeps the number of lines; `SetQtyChangesOneLine` says only the first line with the id changes |
| `Cart.SetQtyChangesOneLine` | script.js:176 | only the first line with the id changes, and only in its quantity, which becomes the new one; every other line, including a later line with the same id, is kept; an absent id leaves the cart unchanged; uniqueness is kept |
| `CartStorage.CartStore.ChangeQuantity` | script.js:174-177 | the slot holds the loaded cart with the line's quantity set to `Number(v) or 1`; unique ids stay unique |
| `Numbers.ToNumber` | script.js:175 | `Number` on trimmed text: blank text is 0, an optionally signed digit run is its value, anything else is NaN; `ToNumberShowInt` and the `QtyOf` lemmas pin its results |
| `Numbers.ShowInt` | script.js:172 | `String(n)` for the shown quantity: a non-empty text with no white space at either end, so `trim` keeps all of it |
| `Numbers.ToNumberShowInt` | script.js:172-175 | `Number` reads back exactly the integer that was rendered |
| `Numbers.DigitsValueShowNat` | script.js:172-175 | the digits of a rendered natural number have its value |
| `Numbers.ShowNat` | script.js:172 | the rendering is a non-empty run of digits with no leading zero |
| `Text.IsSpace` | script.js:38 | the white space `trim` removes and `\s` matches: the ECMAScript WhiteSpace and LineTerminator characters |
| `Text.Trim` | script.js:38 | `trim` removes white space at both ends; `TrimIsSlice`, `TrimEnds` and `TrimEmptyIff` state what it keeps |
| `Text.TrimStartSpec` | script.js:38 | the leading trim keeps a suffix that does not start with white space, and drops only white space |
| `Text.TrimEndSpec` | script.js:38 | the trailing trim keeps a prefix that does not end with white space, and drops only white space |
| `Text.TrimIsSlice` | script.js:38 | `trim` keeps one slice of the string, with only white space around it |
| `Text.TrimEmptyIff` | script.js:68 | the trimmed text is empty exactly when the text is all white space |
| `Text.TrimEnds` | script.js:38 | the trimmed text neither starts nor ends with white space |
| `Text.TrimmedIsFixed` | script.js:38 | a text with no white space at either end is its own trim |
| `Text.TrimIdempotent` | script.js:38 | trimming twice is trimming once |
| `Text.LowerChar` | script.js:38 | a capital maps to the small letter at the same place of the alphabet; every other character is unchanged |
| `Text.Lower` | script.js:38 | lower-casing keeps the length and maps each character as `LowerChar` does |
| `Text.LowerIdempotent` | script.js:38 | lower-casing twice is lower-casing once |
| `Text.LowerTrim` | script.js:38 | lower-casing and trimming commute |
| `Text.Includes` | script.js:45 | `includes`: the needle is a prefix of the text or of one of its suffixes; `IncludesIff` gives its meaning |
| `Text.IncludesIff` | script.js:45 | `includes` holds exactly when the needle occurs at some position |
| `Text.Utf16Length` | script.js:68 | `length` counts UTF-16 code units: at least one and at most two per character |
| `Text.Utf16LengthBmp` | script.js:68 | on text without astral characters `length` is the number of characters |
| `Text.Utf16LengthAstral` | script.js:76 | on text of astral characters only `length` is twice the number of characters |
| `Text.IndexOf` | script.js:72 | the result is the first position of the character, or None when it is absent |
| `Contact.EmailShapeIsPattern` | script.js:72 | the direct test (one `@`, non-empty local part, a dot inside the domain, no white space) accepts exactly what the regular expression matches |
| `Contact.ShapeImpliesPattern` | script.js:72 | every address the direct test accepts matches the pattern |
| `Contact.PatternImpliesShape` | script.js:72 | every address matching the pattern passes the direct test |
| `Contact.SampleAddressMatches` | script.js:72 | `a@b.co` matches the pattern |
| `Contact.Validate` | script.js:61-79 | each error slot holds its message exactly when its check fails (lengths in UTF-16 code units); `ok` holds exactly when all three checks pass, that is when all slots are clear |
| `Contact.ContactForm.Submit` | script.js:59-91 | the error slots are as in `Validate`; on success the notice shows and the fields are empty; on failure the fields and notice are unchanged |
| `Contact.ShortNameRefused` | script.js:68 | a one-letter name fails the name check |
| `Contact.AstralNameAccepted` | script.js:68 | a name of one emoji passes the name check, its `length` being 2 |
| `Contact.AstralMessageAccepted` | script.js:76 | a message of five emoji passes the message check, its `length` being 10 |
| `Contact.EmailPattern` | script.js:72 | the regular expression's meaning: some `@` and some later dot split the text into three non-empty runs without white space or `@`; `EmailShapeIsPattern` ties it to the direct test |
| `Contact.EmailShape` | script.js:72 | the direct test: a non-empty plain run before the first `@`, and after it a plain domain with a dot neither first nor last; proved equal to the pattern by `EmailShapeIsPattern` |
| `Search.CardTitle` | script.js:44 | a non-empty data title wins; otherwise a present heading's text is the title; the title is empty only when both sources are missing or empty |
| `Search.Normalize` | script.js:38-39 | the normalised query is empty, so the handler stops, exactly when the query is all white space; it holds no ASCII capital letter |
| `Search.Shows` | script.js:44-45 | a card stays visible when its lower-cased title includes the query; `ShowsIff` gives its meaning as an occurrence at some position |
| `Search.Visibility` | script.js:43-50 | one display flag per card; `Filter` and `RunSearch` are proved to leave the flags equal to it |
| `Search.Filter` | script.js:41-51 | every card's flag is set to whether it matches, and the count is the number of shown cards |
| `Search.RunSearch` | script.js:36-52 | an empty normalised query changes nothing and reports nothing; otherwise each card is shown exactly when it matches, and the number shown is reported |
| `Search.CaseInsensitive` | script.js:38-45 | queries that agree up to case select the same cards |
| `Search.ShowsIff` | script.js:45 | a card is shown exactly when the query occurs somewhere in its lower-cased title |

## Left out

- Page wiring and rendering are not modelled: the year spans, the menu
  toggle and Escape handling, the table rows, the empty-cart row, the
  badges' DOM writes and the clear-cart and checkout buttons. They only
  look up elements and write to them.
- The re-render that `saveCart` triggers is left out. It writes views and
  does not change the cart.
- Prices, line totals, the grand total and `toFixed(2)` are left out. They
  are floating-point arithmetic. `price` is carried unchanged.
- `alert`, `confirm`, moving the focus to the first invalid field, and the
  8-second timer that hides the success notice are left out. They are
  blocking dialogs and timer callbacks.
- `localStorage` and `JSON.parse`/`JSON.stringify` are foreign calls. They
  are abstracted as a slot that is `Absent`, `Corrupt` (any text that does
  not parse, and the empty text) or `Stored(list)`. Stored JSON that parses
  to something other than a list of items is not modelled.
- `Numbers.ToNumber` covers optionally signed decimal integers surrounded
  by white space. Fractions, exponents, hexadecimal, binary and octal
  literals and `Infinity` are read as NaN, where JavaScript reads them as
  numbers. A fractional quantity such as `"2.5"` therefore gives 1 here but
  2.5 in the script. Its integers are also unbounded: JavaScript rounds
  them to the nearest double, so `"9007199254740993"` gives
  9007199254740992 in the script and 9007199254740993 here.
- `Cart.QtyOfText` holds for this integer-only `Number`. In the script
  `".5"` gives 0.5 and `"Infinity"` gives Infinity.
- `Cart.Count` sums unbounded integers. The script's quantities and its
  `reduce` sum are doubles, exact only up to 2^53.
- `Cart.AddExisting` adds 1 exactly. In the script a quantity of 2^53
  stays 2^53 after `(qty || 1) + 1`, because the sum rounds back.
- `Text.LowerChar` lower-cases ASCII letters only. Full Unicode case
  mapping is not modelled.
- `CartStorage.CartStore.ChangeQuantity` looks up the line by id on the
  current cart. The script's handler keeps the row object and the cart
  snapshot from the last render. When ids are unique and the cart has not
  changed since the render, both pick the same line.
- `CartStorage.CartStore.AddToCart` does not model the `alert` naming the
  added product.
- `Contact.ContactForm.Submit` resets the fields to empty. The form's
  default values come from the page's markup, which is not part of this
  model.
- Concurrent tabs writing the same key are not modelled. The script runs
  one handler at a time.
