# Real-estate monitor: listing ingestion and reconciliation

The monitor scans three Polish property portals: Otodom, OLX and Gratka. Each scan turns
the listing blocks on a portal's result page into listing records, then reconciles those
records with the `properties` table of its database. An unseen listing is inserted and
reported as new. A known listing has its last-seen time refreshed, and its price updated if
the price changed.

This project models that path in Dafny and proves what it guarantees.

- `wrappers.dfy` (module `Wrappers`) holds the optional value that stands for Python's `None`.
- `extract.dfy` (module `Extract`) holds the two field extractors:
  - the price extractor keeps the digits of a text and reads them as a number;
  - the area extractor searches the lower-cased text for the leftmost match of the pattern
    `(\d+[.,]?\d*)\s*m` and reads its group with `,` as the decimal point.

  Both are exact functions over strings. Every match decomposition at a start position
  captures the same group, so the regular-expression engine's backtracking order cannot
  change the result.
- `adapters.dfy` (module `Adapters`) holds the three portal adapters. A result page is a
  sequence of listing blocks, and each block records the texts its element lookups found.
  The adapter loops are methods proved equal to one specification, `Candidates`. It:
  - looks at the first 20 blocks;
  - skips a block that lacks a title, price or link;
  - extracts price and area;
  - makes the link absolute;
  - applies the acceptance filter.

  The Otodom scraper as a whole always returns the empty list. Its debug line reads a local
  variable before the loop assigns it, the exception is caught around the whole body, and
  the model keeps that behaviour.
- `store.dfy` (module `Store`) holds the property key, the table and the scan cycle.
  - The key is the text that the digest is taken of, portal name and url. The digest itself
    is treated as injective.
  - `ListingStore` is a class holding the table as a map from key to row. Its method
    `SaveProperties` runs the insert-or-update loop and is proved equal to the function
    `Reconciled`.
  - Lemmas about `Reconciled` and `NewListings` cover:
    - one row per key;
    - first_seen never changes;
    - a batch's last price wins;
    - the new list is an in-order subsequence of the batch, with distinct fresh keys;
    - the row count grows by exactly the number of new listings;
    - re-running a batch reports nothing new and, at the same time stamp, leaves the table
      exactly as it was.
  - `CheckProperties` chains the enabled portals' scrapers into `SaveProperties`.

Timestamps are a parameter `now`, the moment one reconciliation takes. The HTTP response
and HTML parsing are replaced by the page's block sequence, or `None` when the request
fails.

## Model

| member | source | states |
|---|---|---|
| Extract.ExtractPrice | real_estate_monitor.py:173-182 | There is no price exactly when the text has no digit, the empty text included. Otherwise the price is the number whose decimal digits are the text's digits, in order. |
| Extract.KeepDigits | real_estate_monitor.py:178 | What survives the stripping is made only of digits and is no longer than the text. |
| Extract.KeepDigitsEmpty | real_estate_monitor.py:178-180 | Nothing survives the stripping exactly when the text has no digit. |
| Extract.KeepDigitsAppend | real_estate_monitor.py:178 | Stripping distributes over concatenation. |
| Extract.KeepDigitsOfDigits | real_estate_monitor.py:178 | A text made only of digits survives the stripping unchanged. |
| Extract.DecimalString | real_estate_monitor.py:180 | The decimal writing of a number is non-empty and made only of digits. |
| Extract.DecimalStringValue | real_estate_monitor.py:180 | Reading back the decimal writing of a number gives that number. |
| Extract.ExtractPriceReadsAmount | real_estate_monitor.py:173-182 | An amount written in decimal between digit-free texts is read back exactly. |
| Extract.ExtractPriceIgnoresNonDigit | real_estate_monitor.py:178 | Inserting any non-digit character anywhere leaves the price unchanged. |
| Extract.ExtractPriceReadsGroupedThousands | real_estate_monitor.py:173-182 | "350", any non-digit separator, "000" and any digit-free currency text read as 350000. |
| Extract.ExtractPriceReadsSpacedThousands | real_estate_monitor.py:173-182 | "350 000 zł" reads as 350000. |
| Extract.ExtractPriceWithoutDigits | real_estate_monitor.py:175-180 | A text without digits, "brak ceny", gives no price. |
| Extract.Lower | real_estate_monitor.py:189 | Lower-casing keeps the length and every digit. A character is a digit, whitespace or a `.`/`,` separator exactly when it was one before, and is `m` exactly when it was `m` or `M`. So the pattern sees the same digit runs, spaces and separators, and matches the unit letter in either case. |
| Extract.DigitRunEnd | real_estate_monitor.py:189 | Gives the end of the maximal run of digits starting at a position. |
| Extract.SpaceRunEnd | real_estate_monitor.py:189 | Gives the end of the maximal run of whitespace starting at a position. |
| Extract.MatchAt | real_estate_monitor.py:189 | A match found at a position ends its group strictly after the position and inside the text. |
| Extract.MatchAtSound | real_estate_monitor.py:189 | A match found by MatchAt is a genuine match of the pattern, with that group end. |
| Extract.MatchAtComplete | real_estate_monitor.py:189 | Every way the pattern can match at a position captures the group MatchAt finds. |
| Extract.MatchAtExact | real_estate_monitor.py:189 | MatchAt finds a match at a position exactly when the pattern matches there. |
| Extract.LeftmostMatch | real_estate_monitor.py:189 | Gives the first position where MatchAt succeeds, with its group end; no earlier position matches; none means no position matches. |
| Extract.ReplaceCommas | real_estate_monitor.py:192 | Keeps the length and leaves no comma. The only characters that change are commas, which become points. A text without commas is returned unchanged. |
| Extract.IndexOf | real_estate_monitor.py:192 | Gives the first occurrence of the character, or the length when there is none. |
| Extract.GroupValue | real_estate_monitor.py:191-192 | The group of any match converts without error, to the number that match denotes. |
| Extract.ParseFraction | real_estate_monitor.py:192 | Digits, a point and digits convert to all the digits over ten to the number of fraction digits. |
| Extract.ExtractArea | real_estate_monitor.py:184-195 | No ensures of its own. Characterised by Extract.ExtractAreaSpec: none exactly when nothing matches, otherwise the leftmost match's number. |
| Extract.ParseDecimal | real_estate_monitor.py:192 | No ensures of its own. The `float` conversion of a group, characterised by Extract.ParseFraction and Extract.GroupValue: every group converts, to the number it denotes. |
| Extract.ExtractAreaSpec | real_estate_monitor.py:184-195 | There is no area exactly when the pattern matches nowhere in the lower-cased text. Otherwise the area is the number written by the leftmost match, with the digits after the separator as the fraction. |
| Extract.FoundGroupValue | real_estate_monitor.py:189-192 | The group of the match found at a position is a match of the pattern, and its value is that match's number. |
| Extract.ExtractAreaNeedsDigit | real_estate_monitor.py:186-195 | A text without digits has no area. |
| Extract.ExtractAreaLeftmost | real_estate_monitor.py:189-192 | A match with no digit before it is the one read. |
| Extract.ExtractAreaReadsMeasurement | real_estate_monitor.py:184-195 | A measurement after a digit-free text is read back exactly. It is digits, an optional `.` or `,` with more digits, optional whitespace, and `m` or `M`. |
| Extract.ExtractAreaReadsDecimalComma | real_estate_monitor.py:184-195 | "Mieszkanie 45,5 m² Centrum" gives 45.5. |
| Extract.ExtractAreaWithoutNumber | real_estate_monitor.py:186-195 | "Mieszkanie na sprzedaż" gives no area. |
| Adapters.NormalizeUrl | real_estate_monitor.py:242-243 | A link starting with "http" is kept, any other gets the origin in front. With an http origin, the stored url always starts with "http". |
| Adapters.NormalizeUrlIdempotent | real_estate_monitor.py:305-306 | Normalising an already normalised link changes nothing. |
| Adapters.FirstSquareMetreParam | real_estate_monitor.py:366-369 | Gives the first parameter text containing "m²"; no earlier one contains it; none means no parameter contains it. |
| Adapters.GratkaArea | real_estate_monitor.py:365-369 | The parameter scan that stops at the first "m²" parameter gives that parameter's area, or none. |
| Adapters.AreaFromParams | real_estate_monitor.py:365-369 | No ensures of its own. Gratka's area, characterised by Adapters.FirstSquareMetreParam (which parameter is read) and Adapters.GratkaArea (the loop with its break equals it). |
| Adapters.Candidates | real_estate_monitor.py:225-259 | No ensures of its own. The listings of the first 20 blocks that Adapters.BlockListing accepts, in order. It is characterised by Adapters.CandidatesAtMostMax, Adapters.CandidatesIgnoreLaterBlocks, Adapters.CandidatesSkipIncomplete and Adapters.CandidatesAcceptable. The loops of all three scrapers (also :289-325 and :350-390) are proved equal to it. |
| Adapters.Scraped | real_estate_monitor.py:197-396 | No ensures of its own. What each scraper returns: nothing from Otodom, nothing when the request fails, otherwise Adapters.Candidates. The three scraper methods are proved equal to it, and Adapters.OtodomScraperLosesListings contrasts it with the Otodom loop. |
| Adapters.BlockListing | real_estate_monitor.py:233-256 | A block gives a listing exactly when it is complete, has a non-zero price and area and, outside Otodom, lies in the inclusive price and area ranges. The listing carries the block's title, extracted price and area, and normalised link. |
| Adapters.CandidatesAtMostMax | real_estate_monitor.py:289 | An adapter returns at most 20 listings, and never more than the page has blocks. |
| Adapters.CandidatesIgnoreLaterBlocks | real_estate_monitor.py:350 | Blocks after the twentieth never change what an adapter returns. |
| Adapters.CandidatesSkipIncomplete | real_estate_monitor.py:295-296 | A block lacking a title, price or link is skipped and the loop carries on with the next block. |
| Adapters.CandidatesAcceptable | real_estate_monitor.py:309-310 | Every returned listing belongs to the portal, has a non-zero price and area and an http url. Outside Otodom it also lies in the inclusive price and area ranges. |
| Adapters.OtodomCandidates | real_estate_monitor.py:225-259 | The Otodom block loop returns exactly the accepted listings of the first 20 blocks, in order. |
| Adapters.OlxCandidates | real_estate_monitor.py:289-325 | The OLX block loop returns exactly the accepted listings of the first 20 blocks, in order, with the area taken from the title. |
| Adapters.GratkaCandidates | real_estate_monitor.py:350-390 | The Gratka block loop returns exactly the accepted listings of the first 20 blocks, in order, with the area taken from the first "m²" parameter. |
| Adapters.ScrapeOtodom | real_estate_monitor.py:197-266 | The Otodom scraper returns the empty list whatever the page holds. |
| Adapters.ScrapeOlx | real_estate_monitor.py:268-331 | The OLX scraper returns the block loop's listings, or nothing when the request fails. |
| Adapters.ScrapeGratka | real_estate_monitor.py:333-396 | The Gratka scraper returns the block loop's listings, or nothing when the request fails. |
| Adapters.OtodomScraperLosesListings | real_estate_monitor.py:217 | A page with an acceptable block among the first 20 still yields nothing from the Otodom scraper, although its block loop would return a listing. |
| Store.PropertyIdInjective | real_estate_monitor.py:169-171 | Two listings share a key exactly when they share portal and url. |
| Store.PropertyId | real_estate_monitor.py:169-171 | No ensures of its own. The key is characterised by Store.PropertyIdInjective: two keys are equal exactly when portal and url are. |
| Store.KeyedOneRowPerListing | real_estate_monitor.py:139-140 | In a table whose rows sit under their own key (the class invariant), two rows share a key exactly when they share portal and url: one row per listing. |
| Store.UpsertRow | real_estate_monitor.py:410-435 | No ensures of its own. The three branches (insert, price change, unchanged price) are characterised by Store.UpsertEffect. |
| Store.Upsert | real_estate_monitor.py:404-435 | No ensures of its own. One loop turn on the table, characterised by Store.UpsertEffect; Store.ListingStore.SaveProperties is proved to perform it on each turn. |
| Store.Reconciled | real_estate_monitor.py:403-436 | No ensures of its own. The table after the loop, characterised by Store.ReconciledKeys, Store.ReconciledKeepsHistory, Store.ReconciledInserted, Store.LastPriceWins, Store.ReconciledLookup and Store.ReconciledIdempotent. |
| Store.NewListings | real_estate_monitor.py:400-439 | No ensures of its own. The returned `new_properties`, characterised by Store.NewListingsSubsequence, Store.NewListingsFresh, Store.NewListingsCover and Store.RowCountGrowsByNew. |
| Store.Enabled | real_estate_monitor.py:782-789 | No ensures of its own. One portal's contribution, characterised by Store.EnabledListings and Store.EnabledAdmissible. |
| Store.Collected | real_estate_monitor.py:779-789 | No ensures of its own. The gathered batch, characterised by Store.CollectedAtMost, Store.CollectedAdmissible and Store.CollectedKeepsGratka. |
| Store.UpsertEffect | real_estate_monitor.py:410-435 | Effect of one listing on the table. An unseen key is inserted, first and last seen now and active. A known key takes the new price and last_seen now, keeps its listing columns and first_seen, and takes the new price_per_m2 only if the price changed. No other row changes. |
| Store.IdsMembers | real_estate_monitor.py:404 | A key belongs to a batch's keys exactly when some listing of the batch has it. |
| Store.ReconciledKeys | real_estate_monitor.py:403-436 | The reconciled table's keys are the old keys plus the batch's keys. |
| Store.ReconciledKeepsHistory | real_estate_monitor.py:410-422 | No row is lost. Every old row keeps its first_seen and listing columns, rows the batch does not mention are unchanged, and rows it mentions are last seen now. |
| Store.ReconciledInserted | real_estate_monitor.py:423-435 | A row inserted by the batch is first seen now and active. |
| Store.LastPriceWins | real_estate_monitor.py:413-419 | A key's row ends with the price of the batch's last listing with that key. |
| Store.ReconciledKeyed | real_estate_monitor.py:404 | Every row stays stored under the key of its own portal and url. |
| Store.ReconciledSeenOrder | real_estate_monitor.py:401-435 | If the clock did not go back, every row stays first seen no later than last seen, and last seen no later than now. |
| Store.ReconciledPricesPositive | real_estate_monitor.py:413-433 | A table of priced rows fed priced listings keeps only priced rows. |
| Store.NewListingsSubsequence | real_estate_monitor.py:400-435 | The new list is an in-order subsequence of the batch. |
| Store.NewListingsFresh | real_estate_monitor.py:423-435 | Each new listing has a key the table did not know, and no two share a key. A duplicate within the batch is reported once. |
| Store.NewListingsCover | real_estate_monitor.py:423-435 | The new listings' keys are exactly the batch's keys the table did not know. |
| Store.RowCountGrowsByNew | real_estate_monitor.py:403-439 | The table grows by exactly the number of new listings. |
| Store.NewListingsOfKnown | real_estate_monitor.py:410-422 | A batch whose keys are all known reports nothing new. |
| Store.ReconcileTwice | real_estate_monitor.py:398-439 | Reconciling the same batch again, at any later time, reports nothing new and adds no row, and the rows keep their first_seen and price. |
| Store.ReconciledLookup | real_estate_monitor.py:403-436 | A key's row after the batch depends only on its old row and the batch's listings with that key. |
| Store.RowAfterUntouched | real_estate_monitor.py:403-436 | A batch without the key leaves its row alone. |
| Store.RowAfterKeepsListing | real_estate_monitor.py:410-422 | An existing row keeps existing, with its listing columns and first_seen. |
| Store.RowAfterPrice | real_estate_monitor.py:413-419 | Once the batch has the key, the row exists and its price does not depend on the row before. |
| Store.RowAfterForgetsLastSeen | real_estate_monitor.py:419-422 | Once the batch has the key, the row's previous last_seen makes no difference. |
| Store.RowAfterIdempotent | real_estate_monitor.py:403-436 | Reconciling a key's listings again over their own result changes nothing. |
| Store.ReconciledIdempotent | real_estate_monitor.py:398-439 | Reconciling the same batch twice at the same time leaves the table exactly as once does. |
| Store.EnabledListings | real_estate_monitor.py:782-789 | An enabled portal contributes at most 20 acceptable listings, and Otodom contributes none. |
| Store.EnabledAdmissible | real_estate_monitor.py:785-789 | An enabled OLX or Gratka contributes only priced listings in the ranges, with http urls. |
| Store.CollectedAtMost | real_estate_monitor.py:779-789 | One scan hands at most 40 listings to the reconciliation. |
| Store.CollectedAdmissible | real_estate_monitor.py:779-789 | Every listing handed to the reconciliation is priced and in the ranges, with an http url. |
| Store.CollectedKeepsGratka | real_estate_monitor.py:788-789 | With Gratka enabled, the batch ends with exactly Gratka's listings. |
| Store.ListingStore.constructor | real_estate_monitor.py:133-156 | A new database starts with an empty properties table. |
| Store.ListingStore.SaveProperties | real_estate_monitor.py:398-439 | The loop leaves the table equal to `Reconciled` of the old table and returns `NewListings` of the old keys, keeping every row under its own key. |
| Store.ListingStore.CheckProperties | real_estate_monitor.py:773-794 | Reconciles the concatenated listings of the enabled portals, in the order Otodom, OLX, Gratka, and returns the new ones. |
| Store.PriceChangeScenario | real_estate_monitor.py:410-435 | A listing seen first is inserted and new. Seen again at a new price, it is not new, its row takes the new price, and its first_seen is unchanged. |

## Left out

- HTTP requests, the session and HTML parsing are out. Pages and their element lookups are given as block sequences, or `None` when the request fails. This is foreign library I/O.
- The MD5 digest is out, because a digest cannot be reasoned about. The key is the text the digest is taken of, which makes it injective by construction.
- Floating point is out because it is not exact. Prices are naturals, and areas and range bounds are exact decimals. price_per_m2 is the (price, area) pair that `round(price / area, 2)` is computed from, and the column's rounding and any precision loss are not modelled.
- Extract.ExtractPrice does not model overflow of a very long digit string to infinity, because Python floats are not modelled.
- Extract.IsDigit: `\d` is limited to the ASCII digits, and `str.lower()` only maps ASCII letters. Other Unicode digits and letters are not modelled, because Unicode tables are beyond the model.
- Extract.ParseDecimal accepts only non-empty texts of digits with at most one point and at least one digit, such as "45", "45.5", ".5" or "5.". Every group text of the pattern is among them. Other `float()` syntax (signs, exponents, underscores, surrounding whitespace, "inf", "nan") is out because no group can contain it.
- The per-scraper exception handler is modelled by its effect: a request that raises or gets a non-200 answer is the page `None`, which gives `[]`. The per-block handler is not modelled, because no modelled step inside the loop can raise.
- Store.ListingStore.SaveProperties does not model `conn.commit()` or transactions, because database persistence is I/O.
- The `price_history` column of `properties` (real_estate_monitor.py:153) is left out; no modelled code writes it, and the INSERT leaves it NULL.
- `datetime.now()` is out because the clock is I/O. It is the parameter `now`.
- Email and Telegram notifications (real_estate_monitor.py:441-544) are out because they are network side effects.
- The dashboard HTML and its query (real_estate_monitor.py:546-771) are out because they are templating and file output.
- The keep-alive HTTP server and the scheduler (real_estate_monitor.py:24-43, 813-835) are out because they are concurrency and plumbing.
- Configuration loading and the SQL table definitions (real_estate_monitor.py:58-167) are out because they are I/O. The constructor only starts an empty table.
- Progress and debug printing is out because it is console output.
- test_setup.py, analyze.py and setup.py are not part of this model. They hold live network checks, reports over SQL and an interactive wizard.
