# Minecraft market board bot, modelled in Dafny

The bot reads direct messages of the form
`sell <amount> <item> for <price> <currency>`. Each accepted message becomes a
listing in an append-only ledger, which is saved to a data file, and the seller
gets an acknowledgement. A malformed message gets a help text instead.

On a timer, the bot does three things:
- It groups the ledger by item.
- For each item, in sorted order, it shows the cheapest listing by unit price,
  with trailing zeros dropped from the price, and the number of listings.
- It edits the board message it posted before, or posts a new one and records
  its id.

The model has these modules:
- `PyStr`, `PyInt` and `PySorted`: the Python built-ins the bot relies on.
  These are `lower`, `strip`, `split`, `startswith`, `replace`, `title`,
  `rstrip(c)`, `join`, `int()`, `str()` of an integer, string ordering and
  `sorted`.
- `Listings`: the ledger and the grouping loop, written as an imperative
  method over a map.
- `Command`: the `sell` parser.
- `Msg`: the fixed texts, the acknowledgement and the board template.
- `Board`: the cheapest-listing choice, the price text, the entry of each item
  and the board body. It includes the rendering loop, written as a method.
- `Market`: the bot's state and its two event handlers.

In `Market`, the handlers appear twice:
- as functions on a value (`Receive`, `Reconcile` and `Tick`), which the
  lemmas reason about;
- as methods of the `MarketBot` class, which update its `data` and `disk`
  fields in place. Each method's `ensures` ties it to the matching function.

`disk` is what the data file last received. It is kept apart from `data`, the
dictionary in memory, so the states where the two differ are visible.

The Discord calls, the clock and the random choice of template are not
modelled. Instead they are parameters:
- whether the market channel exists;
- what fetching the stored message gives (found, not found, forbidden, another
  error);
- what sending or editing gives (success with a message id, forbidden, another
  error);
- the timestamp strings;
- the index of the acknowledgement template.

## Model

| member | source | states |
|---|---|---|
| PyStr.Lower | bot.py:78 | `lower()` keeps the length, turns each upper-case letter into the lower-case letter that upper-cases back to it, and leaves every other character as it was |
| PyStr.LStrip | bot.py:78 | the left strip is a suffix of the input that does not start with whitespace, and every character removed is whitespace |
| PyStr.RStrip | bot.py:78 | the right strip is a prefix of the input that does not end with whitespace, and every character removed is whitespace |
| PyStr.Strip | bot.py:78 | `strip()` gives a slice of the input with only whitespace before and after it, and the slice neither starts nor ends with whitespace |
| PyStr.StripKeeps | bot.py:78-85 | stripping adds no character and does not change the words `split()` finds |
| PyStr.TokenLen | bot.py:85 | the leading word runs up to the first whitespace character |
| PyStr.Split | bot.py:85 | every word of `split()` is a non-empty run without whitespace, and the input is exactly those words in order, each two separated by a non-empty run of whitespace, with only whitespace before the first and after the last |
| PyStr.SplitJoin | bot.py:85 | splitting words joined by single spaces gives back exactly those words |
| PyStr.ReplaceChar | bot.py:155 | `replace('_', ' ')` puts a space where each underscore was, leaves no underscore and changes nothing else |
| PyStr.TitleAt | bot.py:155 | `title()` upper-cases a character that does not follow a letter and lower-cases one that does |
| PyStr.RStripChar | bot.py:153 | `rstrip(c)` gives a prefix that does not end in `c`, and every character removed was `c` |
| PyStr.RStripCharDrops | bot.py:153 | one more trailing `c` does not change the result of `rstrip(c)` |
| PyInt.NatToString | bot.py:157 | `str(n)` of a natural number is a non-empty run of digits, with no leading zero, whose value is `n` |
| PyInt.ParseDigits | bot.py:91-93 | `int()` reads a run of digits as its value, and the same run behind `-` as the negated value |
| PyInt.IntToString | msg.py:28 | `str(n)` consists of digits and `-`, and `int()` reads it back as `n`, negative numbers included |
| PySorted.LtIrreflexive | bot.py:149 | no string sorts before itself |
| PySorted.LtTransitive | bot.py:149 | string order is transitive |
| PySorted.LtTotal | bot.py:149 | any two different strings are ordered one way or the other |
| PySorted.Insert | bot.py:149 | inserting a new key into an ascending sequence keeps it ascending and adds exactly that key |
| PySorted.SortedKeys | bot.py:149 | `sorted()` of a dict's keys is strictly ascending and a permutation of the keys |
| PySorted.SortedKeysSameKeys | bot.py:149 | `sorted()` keeps exactly the keys it was given, as many as there were |
| PySorted.AscendingUnique | bot.py:149 | two ascending sequences with the same elements are equal, so the sorted order depends only on the key set |
| Listings.Group | bot.py:139-143 | an item's group is never longer than the ledger |
| Listings.GroupMembers | bot.py:139-143 | a group holds exactly the listings of its item |
| Listings.GroupAppend | bot.py:143 | appending a listing adds it at the end of its own item's group and leaves every other group as it was |
| Listings.Positions | bot.py:139-143 | the positions of an item's listings in the ledger: ascending, all of that item, none missed |
| Listings.GroupIsSubsequence | bot.py:139-143 | a group is the ledger read at its item's positions, so grouping keeps every listing of the item in insertion order |
| Listings.Names | bot.py:142 | the dict's keys in insertion order have no duplicates |
| Listings.NamesMembers | bot.py:139-143 | the keys are exactly the item names in the ledger |
| Listings.NamesEmpty | bot.py:146 | the dict is empty exactly when the ledger is |
| Listings.NamesAppend | bot.py:142 | a listing of a new item adds its name at the end of the keys; a known item adds nothing |
| Listings.GroupNonEmpty | bot.py:142-143 | an item has a non-empty group exactly when it occurs in the ledger |
| Listings.GroupByItem | bot.py:139-143 | the grouping loop builds a dict whose keys are the ledger's item names, each mapped to its group, with the keys in first-seen order |
| Command.ParseWords | bot.py:86-94 | the structure test accepts exactly six words with `sell` first, `for` fourth and integers second and fifth; the command is those integers, the third word and the sixth word |
| Command.ParseSell | bot.py:78-82 | a DM is ignored exactly when its lower-cased, trimmed text does not start with `sell` |
| Command.ParseSellIgnoresCase | bot.py:78 | a DM parses exactly as its lower-cased text does, so letter case never matters |
| Command.ParseSellMalformed | bot.py:85-89 | a `sell` DM is malformed exactly when its words fail the structure test |
| Command.ParseSellAccepted | bot.py:91-94 | an accepted command consists of the parsed words, and its item and currency are single lower-case words |
| Command.ParseItemInfo | msg.py:28 | `sell ` followed by the `item_info` text of a listing parses back to that listing, for any integers and for one-word lower-case names |
| Msg.Format | msg.py:30 | `str.format` succeeds exactly when every field of the template has an argument |
| Msg.FormatOneField | msg.py:30 | a template with one field formats to its text before the field, then the argument, then its text after the field |
| Msg.EveryReplyQuotesItemInfo | msg.py:8-24 | every acknowledgement template has exactly one `{item_info}` field, between two texts |
| Msg.DmReply | msg.py:26-30 | the acknowledgement is the chosen template with the listing text in place of `{item_info}` |
| Msg.DmReplyQuotesListing | msg.py:26-30 | every acknowledgement contains the listing text |
| Msg.AcknowledgementQuotesListing | bot.py:118-119 | the acknowledgement sent for a listing contains that listing's text |
| Msg.BoardMessage | msg.py:47-54 | the board is the header with the first divider, the body, the second divider, `*Last Updated: `, the time and the closing `*` |
| Msg.HeaderEndsWithDivider | msg.py:47-50 | the text before the body ends with the divider and a line break |
| Msg.MiddleStartsWithDivider | msg.py:51-53 | the text after the body starts with a line break and the divider |
| Msg.BoardBodyBetweenDividers | bot.py:163 | in the board message, the body lies right between the two dividers and the time lies between `Last Updated: ` and the closing `*` |
| Board.CheaperIsUnitPriceLess | bot.py:151 | the cross-multiplied integer comparison agrees with comparing the exact unit prices |
| Board.CheapestIndex | bot.py:151 | `min` by unit price picks a listing no other listing undercuts, and it is the first such listing |
| Board.Cheapest | bot.py:151 | the cheapest listing belongs to the group |
| Board.CheapestOfItem | bot.py:150-151 | the listing an item's entry shows is a listing of that item, and no listing of that item is cheaper per unit |
| Board.RoundHalfEvenNearest | bot.py:153 | the rounded value is within half a unit of the exact quotient, and on a tie it is the even neighbour |
| Board.PriceText | bot.py:153 | the price text never ends in `.` |
| Board.PriceTextShape | bot.py:153 | the price text is the sign and the whole part, followed by nothing for a whole number, one decimal for whole tenths, and two decimals otherwise |
| Board.PriceTextWhole | bot.py:152-153 | a non-negative price that is an exact multiple of a positive quantity is shown as the plain integer quotient, with no point |
| Board.PriceTextHelpExample | bot.py:153 | 128 for 64 is shown as `2` |
| Board.DisplayName | bot.py:155 | the displayed item name has the length of the item name |
| Board.DisplayNameAt | bot.py:155 | the displayed name has a space for each underscore, an upper-case letter at each word start and lower case after a letter |
| Board.BlockLines | bot.py:154-158 | an entry starts with the item's name line and ends with its `Total Listings` line, and that line holds the group size as `int()` reads it |
| Board.SortedItems | bot.py:149 | the items are visited strictly ascending, and each item name in the ledger is visited exactly once |
| Board.SortedItemsOfAnyOrder | bot.py:149 | the order of the board does not depend on the order in which items were first listed |
| Board.GroupPriced | bot.py:150-152 | when every listing's unit price can be computed, every listed item's group is non-empty and safe to divide |
| Board.BlocksAppend | bot.py:154 | adding an item adds its entry at the end of the entries |
| Board.BoardBody | bot.py:145-160 | the body fails exactly when some listing's `price_amount / quantity` raises, that is when its quantity is zero or its unit price is at least 2^1024 - 2^970 in magnitude; an empty ledger gives the placeholder sentence |
| Board.BoardBodyEntries | bot.py:149-160 | a non-empty body has one entry per distinct item, in sorted order, joined by blank lines |
| Board.RenderEntries | bot.py:149-158 | the rendering loop stops with the division error only when some listing's unit price raises (zero quantity or float overflow), and otherwise builds the entries of the sorted items |
| Board.RenderBody | bot.py:139-160 | grouping then rendering computes the board body |
| Market.ReceiveIgnored | bot.py:74-82 | a message that is not a DM, is the bot's own, or does not start with `sell` gets no reply and changes nothing |
| Market.ReceiveMalformed | bot.py:86-124 | a malformed `sell` DM gets the help text and changes nothing |
| Market.ReceiveAccepted | bot.py:91-119 | an accepted DM appends exactly one listing at the end, built from the command, author and time; it saves memory to the file, keeps the message id, and acknowledges that listing |
| Market.ReceiveAppendOnly | bot.py:106 | handling a DM only ever extends the ledger, and keeps the message id |
| Market.ReconcileKeepsListings | bot.py:166-201 | fetching and editing or posting never changes the listings, and writes to the file only what is in memory |
| Market.ReconcileFetchFails | bot.py:175-180 | a forbidden or failed fetch of a known message ends the run with nothing changed |
| Market.ReconcileEdits | bot.py:189-197 | editing the found message keeps the message id and saves |
| Market.ReconcilePosts | bot.py:172-197 | with no usable message id, or a message that is gone, the board is posted anew, and the new id is recorded and saved |
| Market.ReconcileNotFoundThenPostFails | bot.py:172-201 | a vanished message followed by a failed post leaves memory without an id while the file keeps the old one |
| Market.ReconcilePostFails | bot.py:189-201 | when the board was found or there was no usable id, a failed edit or post ends the run with the id kept and the file not written |
| Market.ReconcileKeepsLag | bot.py:166-201 | reconciling never puts the file ahead of memory |
| Market.TickAborts | bot.py:132-152 | a missing channel, or a listing whose unit price raises (zero quantity or float overflow), ends the run with nothing changed |
| Market.TickReconciles | bot.py:145-163 | when every unit price can be computed, the run reconciles with the rendered board text: header, body, second divider and time, the body being the placeholder for an empty ledger |
| Market.TickKeepsListings | bot.py:128-201 | a board update never changes the listings |
| Market.LoadKeepsLag | bot.py:40-52 | loading leaves memory agreeing with the file, including at start-up when memory is fresh and the file holds saved data |
| Market.ReceiveKeepsLag | bot.py:97-107 | handling a DM never puts the file ahead of memory |
| Market.TickKeepsLag | bot.py:128-201 | a board update never puts the file ahead of memory |
| Market.ZeroQuantityAccepted | bot.py:91 | a DM offering zero of an item is accepted with quantity zero |
| Market.UnpricedListingPersists | bot.py:151-152 | once a listing whose unit price raises is in the ledger, no DM removes it and every later board update stops at the division |
| Market.OverflowingPriceAccepted | bot.py:91-106 | a DM offering one of an item for a price of at least 2^1024 - 2^970 is accepted and appends a listing whose unit price raises `OverflowError` |
| Market.MarketBot.constructor | bot.py:33 | the bot starts with the fresh value in memory |
| Market.MarketBot.LoadData | bot.py:40-52 | `load_data` replaces memory as `Load` says and leaves the file alone |
| Market.MarketBot.SaveData | bot.py:54-58 | `save_data` writes memory to the file and leaves memory alone |
| Market.MarketBot.OnMessage | bot.py:71-124 | `on_message` changes the state as `Receive` says and sends the text of its reply; a malformed `sell` DM gets the help text and changes nothing |
| Market.MarketBot.ReconcileBoard | bot.py:166-201 | the fetch-then-edit-or-post code changes the state as `Reconcile` says |
| Market.MarketBot.UpdateMarketBoard | bot.py:128-201 | `update_market_board` changes the state as `Tick` says |

## Left out

- Discord itself is not modelled: events, `fetch_message`, `send`, `edit`, `typing()`, `wait_until_ready`, the login and the `tasks.loop` scheduler. The channel lookup and the results of the calls are parameters.
- Handlers run one at a time. In the source, `on_message` and `update_market_board` can interleave at their `await` points. For example, a listing that arrives while the board is typing is saved by the board's `save_data` but is not yet shown on the board.
- A failure to send the acknowledgement or the help text is not modelled. In the source the listing stays saved either way, and the model keeps it too.
- The random reply and typing delays, `asyncio.sleep` and the timing constants are not modelled. They carry no logic.
- Logging is not modelled.
- JSON encoding and `dotenv` configuration are not modelled.
- `load_data`: the data file is modelled as missing, not valid JSON, or a saved value. A valid JSON document of another shape (not an object, a missing key, a field of another type) is not modelled. The source may raise `KeyError`, `TypeError` or `AttributeError` on it later, or display it.
- `open` and `json.dump` are taken to succeed. An I/O error while saving is not modelled.
- Market.Tick: when the division raises (`ZeroDivisionError` or `OverflowError`), the source's `tasks.loop` stops for good. The model instead returns `UnitPriceRaises` with the state unchanged. `UnpricedListingPersists` shows that every later run would stop in the same place.
- Board.PriceTextShape: the `.2f` format is modelled as round-half-even on the exact rational unit price. Python rounds the binary float quotient. The two differ whenever the float quotient and the exact quotient fall on different sides of a hundredths midpoint. Examples: a tie that is not exact in binary (1 for 40); a quotient within half a float unit of a midpoint (10^15 for 2·10^17+1, shown as `0.01` by Python and `0` here); a quotient too large for a float to hold every digit.
- Board.CheapestIndex: unit prices are compared exactly, on the rational values. Python compares float quotients, which can tie where the exact values differ.
- PyStr.Lower: case mapping covers ASCII letters only. `lower()` and `title()` on other scripts are not modelled.
- PyInt.ParseDigits: `int()` is modelled as an optional sign, then ASCII digits with single underscores between digits. Digits of other scripts are not modelled. Surrounding whitespace cannot occur in a word produced by `split()`.
- The acknowledgement template comes from an index argument instead of `random.choice`.
- Timestamps (`utcnow().isoformat()` and the board time) are opaque string arguments.
- Msg.Format: templates are held already split into texts and `{name}` fields. The bot's templates contain no escaped braces, conversions or format specs.
- A phase scheduler and a join-cutoff filter do not appear in `bot.py` or `msg.py`, so there is nothing to model.
