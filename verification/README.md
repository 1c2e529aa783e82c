# Abstract groups pages: subgroup views, presentations and search parsing

This project is a Dafny model of the pure logic behind the LMFDB pages for
abstract groups and of the integer-list parsing in its search forms.

- **Subgroup collection.** The `subgroups` dictionary of a group is a
  sequence of `SubgroupRecord`s in dictionary iteration order, with
  distinct labels. The record carries the fields that the views read.
- **Views over the collection** (`Subgroups`, `Series`, `Lattice`,
  `ByOrder`, `Sylow`):
  - the three product-decomposition lists and their maximum length;
  - the CSS class of a subgroup;
  - the ambient label recovered from a subgroup label;
  - the special-subgroup search (Fitting, radical, socle);
  - the tag-based series search with its stable integer sort, and the
    four-row series table;
  - the breadth-first subgroup lattice layers with their edges;
  - the subgroups grouped by order;
  - the Sylow subgroups listed along a factorisation of the group order.
- **Element codes and presentations** (`PcCode`, `Presentation`,
  `RelatorText`):
  - the mixed-radix decoding of an element code into an exponent vector,
    with its inverse;
  - the block loop that turns a polycyclic presentation into exponents of
    the displayed generators;
  - the assembly of the relator list;
  - the text rewriting of `write_element` and of the relator string:
    generator renaming, exponent bracing and `*` removal. This part is
    stated on a token model of the text.
- **Search parsing** (`SearchParsing`):
  - `clean_input` and `parse_range2`;
  - `collapse_ors` as a cross product of `$or` clause lists;
  - `parse_ints` and `parse_list`.

A flashed error message is modelled as an `Err` result, and so is a Python
exception (`KeyError`, `ValueError`, `ZeroDivisionError`). Dictionaries
whose iteration order matters are modelled as sequences. Dictionaries
whose order does not matter are modelled as Dafny maps.

Shared helpers live in `Wrappers` (`Option`, `Result`), `Seqs` (filter,
flatten, duplicate-freedom), `Text` (digits, Python whitespace, `split`,
`join`, `replace`, `int()`) and `Sorting` (a stable sort on integer keys,
which is Python's `sorted(..., key=...)`).

## Model

| member | source | states |
|---|---|---|
| Subgroups.DirectProducts | lmfdb/groups/abstract/web_groups.py:141-144 | exactly the records that are normal, direct and of nontrivial order and index are listed, each as often as it occurs in the collection |
| Subgroups.SemidirectProducts | lmfdb/groups/abstract/web_groups.py:146-149 | exactly the normal, split, non-direct records are listed, each as often as it occurs in the collection |
| Subgroups.NonsplitProducts | lmfdb/groups/abstract/web_groups.py:151-154 | exactly the normal, non-split records are listed, each as often as it occurs in the collection |
| Subgroups.MostProductExpressions | lmfdb/groups/abstract/web_groups.py:138-139 | the result is one of the three list lengths, is at least each of them, and is at most the number of subgroups |
| Subgroups.ProductListsDisjoint | lmfdb/groups/abstract/web_groups.py:141-154 | a record whose direct flag implies its split flag appears in at most one of the three product lists |
| Subgroups.ProductCounts | lmfdb/groups/abstract/web_groups.py:141-154 | when every direct record is split, the three product lists together are no longer than the collection |
| Subgroups.SpanClass | lmfdb/groups/abstract/web_groups.py:452-458 | the class always starts with `subgp`; it is `subgp chargp` exactly for characteristic subgroups, `subgp normgp` exactly for normal non-characteristic ones, and plain `subgp` otherwise |
| Subgroups.AmbientOf | lmfdb/groups/abstract/web_groups.py:448 | a changed label is always of the group-label shape `N.c`, possibly keeping a final newline as Python's `$` allows |
| Subgroups.AmbientOfSubgroupLabel | lmfdb/groups/abstract/web_groups.py:448 | the label `N.c.i` of a subgroup maps back to its ambient label `N.c` |
| Subgroups.AmbientOfUndotted | lmfdb/groups/abstract/web_groups.py:448 | a label without a dot is left unchanged |
| Subgroups.AmbientOfShape | lmfdb/groups/abstract/web_groups.py:448 | a label is changed exactly when it has the shape `\d+\.[a-z0-9]+\.\d+`, optionally followed by one final newline |
| Subgroups.AmbientOfParts | lmfdb/groups/abstract/web_groups.py:448 | such a label `N.c.i` becomes `N.c`, and a final newline stays in place |
| Subgroups.AmbientOfChanged | lmfdb/groups/abstract/web_groups.py:448 | only a label of that shape is changed |
| Subgroups.ThreePartsText | lmfdb/groups/abstract/web_groups.py:448 | a text whose part before a final newline splits at dots into `\d+`, `[a-z0-9]+`, `\d+` has the shape the substitution matches |
| Subgroups.MaxLabel | lmfdb/groups/abstract/web_groups.py:160 | the result is one of the labels and no label is larger in Python's string order |
| Series.SpecialSearch | lmfdb/groups/abstract/web_groups.py:57-63 | the result is absent exactly when no record carries the tag `<ambient>.<sp>`; otherwise it is the name of the first record in iteration order that does |
| Series.Fitting | lmfdb/groups/abstract/web_groups.py:67-69 | absent exactly when no record carries the tag `<ambient>.F`; otherwise the name of the first record, in iteration order, that carries it |
| Series.Radical | lmfdb/groups/abstract/web_groups.py:71-73 | absent exactly when no record carries the tag `<ambient>.R`; otherwise the name of the first record, in iteration order, that carries it |
| Series.Socle | lmfdb/groups/abstract/web_groups.py:75-77 | absent exactly when no record carries the tag `<ambient>.S`; otherwise the name of the first record, in iteration order, that carries it |
| Series.Matches | lmfdb/groups/abstract/web_groups.py:84-93 | every collected pair is a label and one of that record's tags, and the tag matches the unanchored-dot pattern `^<ambient>.<sp>\d+`; every matching tag of every record is collected |
| Series.MatchesPerRecord | lmfdb/groups/abstract/web_groups.py:87-93 | the pairs are the concatenation, in iteration order, of each record's pairs |
| Series.EntriesComplete | lmfdb/groups/abstract/web_groups.py:87-99 | every record carrying a matching tag has a sorted entry |
| Series.TagMatches | lmfdb/groups/abstract/web_groups.py:90-93 | for one record, the pairs are the record's label with its matching tags, filtered in order, each occurrence once |
| Series.KeyAll | lmfdb/groups/abstract/web_groups.py:95-99 | the sort keys are `int()` of the text after the first split on the series letter; any pair whose key fails makes the whole search fail, reporting one such tag |
| Series.SeriesEntries | lmfdb/groups/abstract/web_groups.py:94-99 | the keyed pairs come out sorted by key, as a permutation of the input, with equal keys in their original order |
| Series.SeriesSearch | lmfdb/groups/abstract/web_groups.py:83-99 | the search fails exactly when some matched tag has no integer key; otherwise it returns one label per matched pair, each carrying a matching tag, in stably sorted key order, and every record carrying a matching tag is among them |
| Series.EntriesCarry | lmfdb/groups/abstract/web_groups.py:88-99 | every sorted entry names a record that carries a matching tag |
| Series.ExampleMatches | lmfdb/groups/abstract/web_groups.py:84-93 | on two concrete records, only the `C` tags are collected, in iteration order |
| Series.SeriesKeyOf | lmfdb/groups/abstract/web_groups.py:95-96 | a tag `<prefix><sp><n>` has sort key `n` |
| Series.Capitalize | lmfdb/groups/abstract/web_groups.py:216 | the result has the same letters up to case, in the same places, and is capitalised: no lower-case first character and no upper-case character after it |
| Series.CapitalizeUnique | lmfdb/groups/abstract/web_groups.py:216 | the capitalised text is the only capitalised text of the same length with the same letters up to case |
| Series.CapitalizeFixed | lmfdb/groups/abstract/web_groups.py:216 | a capitalised text is left unchanged |
| Series.CapitalizeIdempotent | lmfdb/groups/abstract/web_groups.py:216 | capitalising twice is capitalising once |
| Series.Row | lmfdb/groups/abstract/web_groups.py:215-219 | a row carries the knowl `group.<attr>`, the capitalised title, the records of the found labels in order, the labels joined by `-`, and `\rhd` |
| Series.Searches | lmfdb/groups/abstract/web_groups.py:101-115 | the searches for the series letters fail exactly when one of them fails; otherwise there is one result per letter, equal to that letter's search, and every label found is a key of the collection |
| Series.Rows | lmfdb/groups/abstract/web_groups.py:215-220 | one row per series name, each built from that series' labels |
| Series.SeriesTable | lmfdb/groups/abstract/web_groups.py:214-223 | the table fails exactly when one of the four series searches fails; otherwise it has four rows in the order derived, chief, lower central, upper central, each built from its search, and only the last is reversed with `\lhd` |
| Series.TurnedRow | lmfdb/groups/abstract/web_groups.py:221-222 | reversing a row lists its records from the other end and switches the symbol, keeping the joined text |
| Series.TableRows | lmfdb/groups/abstract/web_groups.py:221-222 | turning only the fourth row of four plain rows gives the table shape |
| Sorting.Sort | lmfdb/groups/abstract/web_groups.py:99 | the result is sorted by key and is a permutation of the input |
| Sorting.SortStable | lmfdb/groups/abstract/web_groups.py:99 | entries with equal keys keep their input order |
| Sorting.SortSorted | lmfdb/groups/abstract/web_groups.py:99 | an input already sorted by key is returned unchanged |
| Sorting.Items | lmfdb/groups/abstract/web_groups.py:99 | the first components are taken in order |
| Lattice.Discover | lmfdb/groups/abstract/web_groups.py:171-175 | each unseen label of `H.contains` is marked seen and its record collected once; afterwards every listed label is seen; an unknown label is a `KeyError`, which cannot happen when every listed label is a key |
| Lattice.DiscoverOrder | lmfdb/groups/abstract/web_groups.py:171-175 | the collected records are those of the listed labels not seen before, each once, in the order of their first listing |
| Lattice.DiscoverAppend | lmfdb/groups/abstract/web_groups.py:171-175 | the inner loop over two lists is the loop over the first followed by the loop over the second, starting from its seen set |
| Lattice.NextLayerDiscover | lmfdb/groups/abstract/web_groups.py:166-175 | one pass of the outer loop is the inner loop over every label listed by the previous layer, in order |
| Lattice.NextLayerOrder | lmfdb/groups/abstract/web_groups.py:166-175 | a pass collects the records of the unseen labels listed by the previous layer, each once, in the order in which they are first listed; their labels are `Unseen` of the listed labels |
| Lattice.UnseenFirst | lmfdb/groups/abstract/web_groups.py:171-175 | the reference list `Unseen` holds the labels not seen before, each once, in the order of their first occurrence |
| Lattice.DiscoverUnseen | lmfdb/groups/abstract/web_groups.py:171-175 | the inner loop collects the records of exactly the labels `Unseen` lists, in that order |
| Lattice.InOrderStep | lmfdb/groups/abstract/web_groups.py:166-175 | a layer of the first-listed unseen labels keeps every layer in that order |
| Lattice.OrderedAfterSnoc | lmfdb/groups/abstract/web_groups.py:166-175 | after a pass, each old layer stays in first-listing order and the new layer is in it by construction |
| Lattice.StoppedAtGuard | lmfdb/groups/abstract/web_groups.py:165 | a drawing that stopped never ends with a layer added after every label was drawn |
| Lattice.ContinuedStep | lmfdb/groups/abstract/web_groups.py:165 | a pass made while some label is undrawn keeps the record that the loop guard held before every pass |
| Lattice.NotAllDrawn | lmfdb/groups/abstract/web_groups.py:165 | while fewer labels are seen than there are keys, some label is undrawn |
| Lattice.OrderKeeps | lmfdb/groups/abstract/web_groups.py:165-175 | a pass run under the loop guard keeps the first-listing order of the layers and the record that the guard held |
| Lattice.PassKeeps | lmfdb/groups/abstract/web_groups.py:165-175 | a pass run under the loop guard keeps the loop invariant, order and stopping record included |
| Lattice.NextLayer | lmfdb/groups/abstract/web_groups.py:168-175 | a pass collects fresh records, each listed by some record of the previous layer, and afterwards every label those records list is seen; it fails only on a listed label that is not a key |
| Lattice.SubgroupLayers | lmfdb/groups/abstract/web_groups.py:156-181 | an empty collection fails at `max`; a closed collection (every listed label a key) always succeeds; the layers start at the largest label, no record appears twice, each record below the top is listed by one in the layer above, the layers are breadth-first, each layer lists the first-listed unseen labels in order, every pass ran while some label was undrawn, and the drawing stopped with every label drawn or an empty last layer; the edges are `AllEdges` |
| Lattice.DrawLayers | lmfdb/groups/abstract/web_groups.py:165-175 | the while loop keeps the drawn layers duplicate-free, linked, breadth-first and in first-listing order; every pass ran while some label was undrawn, and the loop ends when every label is drawn or a pass adds nothing; a failure names a listed label that is not a key |
| Lattice.Pass | lmfdb/groups/abstract/web_groups.py:166-175 | one iteration of the while loop keeps the loop invariant and grows the seen set exactly when it adds a record |
| Lattice.MissingLabel | lmfdb/groups/abstract/web_groups.py:175 | a label listed by a drawn record but absent from the keys makes the collection not closed |
| Lattice.FirstLayer | lmfdb/groups/abstract/web_groups.py:160-162 | the single top layer with its label seen satisfies the loop invariant |
| Lattice.PassProgress | lmfdb/groups/abstract/web_groups.py:165-175 | a pass only adds keys to the seen set, and adds some exactly when it finds a record, so the loop terminates |
| Lattice.AllSeen | lmfdb/groups/abstract/web_groups.py:165 | once the seen set is as large as the collection, every label has been seen |
| Lattice.LayerStep | lmfdb/groups/abstract/web_groups.py:166-175 | appending the next layer keeps labels distinct, keeps the tree shape and breadth-first order, and keeps the seen set equal to the drawn labels |
| Lattice.AllEdges | lmfdb/groups/abstract/web_groups.py:176-179 | every edge is a pair `[h, g]` with `h` listed in `g.contains`, every such pair is an edge, and there are as many edges as listings |
| Lattice.AllEdgesPerRecord | lmfdb/groups/abstract/web_groups.py:176-179 | the edge list is, record after record in iteration order, one `[h, g]` per entry of `g.contains` in list order: no edge repeated or dropped |
| ByOrder.SortedOrders | lmfdb/groups/abstract/web_groups.py:188 | the orders that occur, each once, in ascending order |
| ByOrder.OfOrder | lmfdb/groups/abstract/web_groups.py:189-192 | exactly the records of one order, taken from the collection |
| ByOrder.OfOrderFilter | lmfdb/groups/abstract/web_groups.py:189-192 | the records of one order are the collection filtered by that order: iteration order and every occurrence kept |
| ByOrder.OverEdges | lmfdb/groups/abstract/web_groups.py:193-194 | the edges are exactly the pairs `[k, sub]` with `k` listed in `sub.contained_in` |
| ByOrder.OverEdgesPerRecord | lmfdb/groups/abstract/web_groups.py:193-194 | the edge list is, record after record in iteration order, one `[k, sub]` per entry of `sub.contained_in` in list order: no edge repeated or dropped |
| ByOrder.Layers | lmfdb/groups/abstract/web_groups.py:195 | the layer for the k-th order holds the records of that order |
| ByOrder.SubgroupLayerByOrder | lmfdb/groups/abstract/web_groups.py:184-197 | the dictionary loop returns the records grouped by ascending order and the upward edges |
| ByOrder.GroupByOrder | lmfdb/groups/abstract/web_groups.py:189-194 | after the loop, every order maps to its records in iteration order, and the edges are collected |
| ByOrder.ReadLayers | lmfdb/groups/abstract/web_groups.py:195 | reading the dictionary in the ascending key order gives the layers |
| ByOrder.AppendAbove | lmfdb/groups/abstract/web_groups.py:193-194 | one edge per minimal overgroup is appended, in list order |
| ByOrder.ByOrderLayers | lmfdb/groups/abstract/web_groups.py:184-195 | no layer is empty, the orders strictly increase from layer to layer, and every subgroup lies in some layer |
| ByOrder.ByOrderPartition | lmfdb/groups/abstract/web_groups.py:189-195 | the layers together hold exactly as many records as the collection |
| ByOrder.LayersPartition | lmfdb/groups/abstract/web_groups.py:189-195 | for any increasing list of orders covering every record, the layers partition the collection |
| Sylow.SylowDict | lmfdb/groups/abstract/web_groups.py:203-206 | every record with a positive Sylow prime has its prime as a key, and each key maps to the last record with that prime |
| Sylow.SylowSubgroups | lmfdb/groups/abstract/web_groups.py:199-211 | each pair is a prime of the factorisation with the last record of that Sylow prime, and every factorisation prime that some record names is listed |
| Sylow.Collect | lmfdb/groups/abstract/web_groups.py:207-211 | the primes in the dictionary are kept, in factorisation order, with their records |
| Sylow.SylowListed | lmfdb/groups/abstract/web_groups.py:204-210 | a factorisation prime is listed exactly when it is positive and some record names it |
| Sylow.CollectAscending | lmfdb/groups/abstract/web_groups.py:208-210 | with ascending primes, the kept primes are strictly ascending |
| Sylow.SylowAscending | lmfdb/groups/abstract/web_groups.py:208-211 | for a factorisation in ascending primes, the result lists each prime once, in ascending order |
| Sylow.IgnoresZero | lmfdb/groups/abstract/web_groups.py:205 | a record with Sylow field 0 does not change the result |
| Sylow.LastWins | lmfdb/groups/abstract/web_groups.py:206 | a later record with the same Sylow prime replaces the earlier one |
| PcCode.Decode | lmfdb/groups/abstract/web_groups.py:242-251 | a code outside `[0, order)` fails first; otherwise a zero relative order fails; otherwise each exponent is below its relative order |
| PcCode.DecodeLoop | lmfdb/groups/abstract/web_groups.py:244-250 | the loop over the reversed relative orders, inserting at the front, computes the mixed-radix digits |
| PcCode.Digits | lmfdb/groups/abstract/web_groups.py:247-250 | the digits form a valid exponent vector for the relative orders |
| PcCode.EncodeDigits | lmfdb/groups/abstract/web_groups.py:247-250 | re-encoding the digits of any code gives the code modulo the group order |
| PcCode.DigitsEncode | lmfdb/groups/abstract/web_groups.py:247-250 | a valid exponent vector encodes below the group order and decodes back to itself |
| PcCode.DecodeRoundTrip | lmfdb/groups/abstract/web_groups.py:242-250 | every code in range decodes, and its exponent vector encodes back to the code |
| PcCode.EncodeRoundTrip | lmfdb/groups/abstract/web_groups.py:242-250 | every valid exponent vector is the decoding of its encoding |
| PcCode.DecodeExamples | lmfdb/groups/abstract/web_groups.py:242-250 | with relative orders 2 and 3, codes 0 and 5 decode to `[0, 0]` and `[1, 2]` |
| Presentation.Ends | lmfdb/groups/abstract/web_groups.py:342 | a block closes at exactly the indices that are the last pc generator or precede a displayed generator, in ascending order |
| Presentation.ScanLoop | lmfdb/groups/abstract/web_groups.py:331-347 | the loop fails exactly when some power relation among `1..n` is missing, at the first missing index; otherwise its variables end as `ScanTo` gives them |
| Presentation.ScanToScanned | lmfdb/groups/abstract/web_groups.py:337-347 | on entry to step `i` the closed blocks are those `Ends` names, each with the product of its exponents, and `curpow` is the product over the open block |
| Presentation.AdvanceOk | lmfdb/groups/abstract/web_groups.py:340-347 | one step of the loop keeps that invariant |
| Presentation.BlockLoop | lmfdb/groups/abstract/web_groups.py:331-347 | the loop fails exactly when some power relation among `1..n` is missing, and reports the first missing index; otherwise blocks close where `Ends` says, each block exponent is the product of its power exponents, and the block exponents multiply to the product of all of them |
| Presentation.ExponentBlocks | lmfdb/groups/abstract/web_groups.py:331-349 | the block loop and then the generator-count check: a missing power relation is reported first, then a block count different from `ngens` |
| Presentation.PowerKeys | lmfdb/groups/abstract/web_groups.py:351-360 | exactly the indices whose relation is pure (or, respectively, has a right-hand side), ascending |
| Presentation.PowerKeysPartition | lmfdb/groups/abstract/web_groups.py:351-355 | every block index is either pure or relative |
| Presentation.PowerTexts | lmfdb/groups/abstract/web_groups.py:351-360 | one text per pure (or relative) power relation |
| Presentation.SortConj | lmfdb/groups/abstract/web_groups.py:361 | the conjugation relations are sorted by `(generator, conjugator)` and form a permutation of the input |
| Seqs.IndexOf | lmfdb/groups/abstract/web_groups.py:363 | `list.index(x)` is the first position holding `x` |
| Presentation.Kept | lmfdb/groups/abstract/web_groups.py:361-363 | exactly the conjugation relations whose two generators are both displayed are kept |
| Presentation.KeptFilter | lmfdb/groups/abstract/web_groups.py:361-363 | the kept relations are the given ones filtered by `Shown`, in order |
| Presentation.KeptCount | lmfdb/groups/abstract/web_groups.py:361-363 | every occurrence of a shown relation is kept, and nothing else |
| Presentation.KeptSorted | lmfdb/groups/abstract/web_groups.py:361-363 | keeping some relations preserves the sorted order |
| Presentation.ConjOrder | lmfdb/groups/abstract/web_groups.py:361-363 | the conjugation relators appear in key order, and every relation between displayed generators appears |
| Presentation.ConjTexts | lmfdb/groups/abstract/web_groups.py:361-363 | one text per kept conjugation relation |
| Presentation.Relators | lmfdb/groups/abstract/web_groups.py:356-364 | when there are pure powers, the first relator is them joined by `=` followed by `=1`; the relator count is one for the pure powers (when any) plus the relative and conjugation relators |
| Presentation.GenListLetters | lmfdb/groups/abstract/web_groups.py:330 | the generator list has length `3*ngens-2` (or is empty) and holds the k-th letter, a comma and a space in turn |
| Presentation.PowerTokensText | lmfdb/groups/abstract/web_groups.py:352-355 | the word of a power relator, a letter, its exponent and `=` with the image for a relative power, prints as the relator text |
| Presentation.PowerHeadText | lmfdb/groups/abstract/web_groups.py:353-355 | the letter and exponent print as `x^e` |
| Presentation.PowerTokensOk | lmfdb/groups/abstract/web_groups.py:352-355 | a power relator word is handled by the clean-up whenever its image is |
| Presentation.ConjTokensText | lmfdb/groups/abstract/web_groups.py:362-363 | the word of a conjugation relator, a letter, a caret before the conjugator's letter, `=` and the image, prints as the relator text |
| Presentation.ConjTokensOk | lmfdb/groups/abstract/web_groups.py:362-363 | a conjugation relator word is handled by the clean-up whenever its image is |
| Presentation.ChainText | lmfdb/groups/abstract/web_groups.py:356-358 | the pure-power words joined by `=` and followed by `=1` print as the first relator |
| Presentation.RelatorWordsText | lmfdb/groups/abstract/web_groups.py:356-363 | the relator words print, one by one, as the relator texts |
| Presentation.RelatorTokensText | lmfdb/groups/abstract/web_groups.py:356-364 | the relator words joined by `, ` print as the joined relator texts |
| Presentation.RelatorTokensOk | lmfdb/groups/abstract/web_groups.py:356-364 | when every image is a handled word over the displayed generators, so is the whole relator part |
| Presentation.RelatorsDisplay | lmfdb/groups/abstract/web_groups.py:364-368 | renaming, bracing and star removal applied to the joined relator texts give the display of the relator words: every generator a letter, exponents braced, no `*` |
| Presentation.PcTextDisplay | lmfdb/groups/abstract/web_groups.py:330-369 | the string built by `presentation` for a pc group is the generator letters and the display of the relator words |
| Presentation.PresentationText | lmfdb/groups/abstract/web_groups.py:286-373 | a positive representation type is `NotImplementedError`; a negative one gives the permutation-generator display; a pc group succeeds exactly when every power relation is given and the block count equals `ngens`, and then shows the relators of those blocks; when every image is a handled word, that text is the generator letters and the display of the relator words |
| RelatorText.Letter | lmfdb/groups/abstract/web_groups.py:281 | the letter `chr(97+i)` is not a digit, `^` or `*` |
| RelatorText.GenName | lmfdb/groups/abstract/web_groups.py:281 | a generator name is `f` followed by digits |
| RelatorText.Step | lmfdb/groups/abstract/web_groups.py:280-281 | replacing `f<i>` turns exactly the tokens for generator i into its letter |
| RelatorText.Lettered | lmfdb/groups/abstract/web_groups.py:280-281 | every generator token becomes its letter and nothing else changes |
| RelatorText.ReplaceOne | lmfdb/groups/abstract/web_groups.py:281 | when no higher generator is left, the string replacement of `f<i>` acts on the text exactly as `Step` acts on the tokens, so `f1` never hits inside `f10` |
| RelatorText.ReplaceLowerGen | lmfdb/groups/abstract/web_groups.py:280-281 | the name of a lower generator followed by a non-digit is not touched by the replacement of a higher one |
| RelatorText.StepKeeps | lmfdb/groups/abstract/web_groups.py:280-281 | after replacing generator i, the tokens stay well formed and only generators below i are left |
| RelatorText.StepLettered | lmfdb/groups/abstract/web_groups.py:280-281 | lettering after one step gives the same result as lettering directly |
| RelatorText.SubstGensTokens | lmfdb/groups/abstract/web_groups.py:280-281 | the descending replacement loop renames every generator to its letter |
| RelatorText.WriteElement | lmfdb/groups/abstract/web_groups.py:276-282 | only pc groups give a text; for a word over `f1`..`f<ngens>` it is the word with every generator renamed to its letter |
| RelatorText.WriteElementBeyondGens | lmfdb/groups/abstract/web_groups.py:279-281 | a generator beyond `ngens` is renamed only in part: with three generators `f12` becomes `a2` |
| RelatorText.Braced | lmfdb/groups/abstract/web_groups.py:9 | an exponent is shown as its decimal text, put in braces exactly when that text starts with `-` or has two or more characters |
| RelatorText.FixPow | lmfdb/groups/abstract/web_groups.py:367 | `^e` followed by a non-digit is rewritten as `^` and the braced exponent |
| RelatorText.FixSkips | lmfdb/groups/abstract/web_groups.py:367 | text without `^` is left as it is |
| RelatorText.FixNegative | lmfdb/groups/abstract/web_groups.py:9 | a negative exponent gets braces |
| RelatorText.FixLong | lmfdb/groups/abstract/web_groups.py:9 | an exponent of two or more digits gets braces |
| RelatorText.FixOneDigit | lmfdb/groups/abstract/web_groups.py:9 | a single-digit exponent stays unbraced |
| RelatorText.FixTokens | lmfdb/groups/abstract/web_groups.py:367 | the exponent substitution braces exactly the exponents that need it |
| RelatorText.FixCaretLetter | lmfdb/groups/abstract/web_groups.py:367 | a caret before a letter is not an exponent and is left as it is |
| RelatorText.ReplaceCaret | lmfdb/groups/abstract/web_groups.py:365-366 | a caret before a letter is not touched by the generator renaming |
| RelatorText.StarsTokens | lmfdb/groups/abstract/web_groups.py:368 | removing `*` from the braced, lettered text gives the display form |
| RelatorText.NormaliseTokens | lmfdb/groups/abstract/web_groups.py:365-368 | on any well-formed word, renaming, bracing and `*` removal together give its display form: every generator a letter, every exponent braced as needed, and no `*` left |
| RelatorText.RenderJoin | lmfdb/groups/abstract/web_groups.py:364 | joining words with a separator and then printing them is joining their printed texts |
| RelatorText.WordJoin | lmfdb/groups/abstract/web_groups.py:364 | handled words joined by plain text that does not start with a digit form a handled word |
| RelatorText.WordAppend | lmfdb/groups/abstract/web_groups.py:364 | two handled words side by side form a handled word unless a digit would run into an exponent |
| SearchParsing.CleanInput | lmfdb/search_parsing.py:15-16 | no whitespace or angle bracket is left and the text does not grow |
| SearchParsing.CleanCounts | lmfdb/search_parsing.py:16 | every other character keeps its number of occurrences |
| SearchParsing.CleanAppend | lmfdb/search_parsing.py:16 | cleaning works character by character: it distributes over concatenation |
| SearchParsing.CleanKeeps | lmfdb/search_parsing.py:16 | text with nothing to delete is unchanged |
| SearchParsing.CleanIdempotent | lmfdb/search_parsing.py:15-16 | cleaning twice is cleaning once |
| SearchParsing.FindFrom | lmfdb/search_parsing.py:29 | `str.index` finds the first occurrence at or after the start, and fails only when there is none |
| SearchParsing.ParseItem | lmfdb/search_parsing.py:28-38 | a range is produced only when a `-` occurs after the first character; otherwise the item is the integer it parses to |
| SearchParsing.ParseItems | lmfdb/search_parsing.py:25 | the comprehension fails exactly when one item fails, and otherwise parses each piece in order |
| SearchParsing.ParseRange2 | lmfdb/search_parsing.py:19-38 | with spaces removed, a comma gives `$or` with one single-field clause per piece, and otherwise the single item under `key`; it fails exactly when an item fails |
| SearchParsing.ItemRoundTrip | lmfdb/search_parsing.py:28-38 | a written integer or range matches the list pattern and parses back to its value |
| SearchParsing.SingleRoundTrip | lmfdb/search_parsing.py:37-38 | a digit string parses to its value |
| SearchParsing.SpanChars | lmfdb/search_parsing.py:4 | `d-` and `d-e` forms match the item pattern |
| SearchParsing.SpanParses | lmfdb/search_parsing.py:28-36 | `d-e` splits at the dash and parses both bounds |
| SearchParsing.ParseRange2RoundTrip | lmfdb/search_parsing.py:19-38 | a written list of items matches the list pattern and parses back to the item value or the `$or` of the item values |
| SearchParsing.ParseRange2Several | lmfdb/search_parsing.py:24-27 | several items give the `$or` of single-field clauses, in order |
| SearchParsing.ItemReParses | lmfdb/search_parsing.py:4 | every string matching the item pattern parses without error |
| SearchParsing.ListReParses | lmfdb/search_parsing.py:4 | every string matching `LIST_RE` parses without error |
| SearchParsing.Cross | lmfdb/search_parsing.py:43-50 | the merged list has one clause per pair of an old and a new clause |
| SearchParsing.CrossAt | lmfdb/search_parsing.py:45-49 | the clause at position `j*len(old)+i` is the old clause i updated by the new clause j |
| SearchParsing.CrossElement | lmfdb/search_parsing.py:45-49 | every merged clause is some old clause updated by some new clause |
| SearchParsing.CollapseOrs | lmfdb/search_parsing.py:40-51 | only the parsed key is set and every other field is kept; without a previous `$or` the parsed value is stored; with one, the two clause lists are crossed |
| SearchParsing.HoldsUnion | lmfdb/search_parsing.py:48 | merging two clauses on disjoint fields gives their conjunction |
| SearchParsing.CrossIsConjunction | lmfdb/search_parsing.py:40-50 | for clauses on disjoint fields, the crossed disjunction holds exactly when both the old and the new disjunctions hold |
| SearchParsing.ParseInts | lmfdb/search_parsing.py:53-62 | empty input leaves the query as it is; input outside `LIST_RE` after cleaning is reported; otherwise only the parsed key is set, and it cannot fail unless a `$or` is already present |
| SearchParsing.ParseIntsRoundTrip | lmfdb/search_parsing.py:53-62 | a written list of items sets the field to the item value, or sets `$or` to one clause per item |
| SearchParsing.CleanedListChars | lmfdb/search_parsing.py:55-56 | cleaning leaves digits, dashes and commas as they are |
| SearchParsing.DotsRange | lmfdb/search_parsing.py:56 | `a..b` is read as the range `a-b` |
| SearchParsing.ParseAll | lmfdb/search_parsing.py:72 | the comprehension succeeds exactly when `int()` accepts every piece, gives their values in order, and otherwise reports a piece it rejects |
| SearchParsing.Trimmed | lmfdb/search_parsing.py:68-69 | input of at most two characters is kept; longer input loses its spaces and then its first and last characters |
| SearchParsing.ParseList | lmfdb/search_parsing.py:64-80 | input that is empty after trimming leaves the query as it is; input without a digit is reported; otherwise it succeeds exactly when every comma-separated piece is accepted by `int()`, and then only the field is set, to the list of parsed integers or to `test` of it |
| SearchParsing.ParseListRoundTrip | lmfdb/search_parsing.py:64-76 | a bracketed list of numerals sets the field to that list |
| SearchParsing.BracketedBody | lmfdb/search_parsing.py:68-72 | trimming a bracketed list leaves its body, which splits into the numerals |
| SearchParsing.ParseListShort | lmfdb/search_parsing.py:68-76 | input of one or two digits is not trimmed and is read as one integer |
| SearchParsing.ParseListEmpty | lmfdb/search_parsing.py:68-70 | `[]` is too short to trim and is reported, while `[ ]` trims to nothing and leaves the query as it is |
| Text.ParseIntDigits | lmfdb/groups/abstract/web_groups.py:96 | `int()` of a digit string is its decimal value |
| Text.ParseIntRoundTrip | lmfdb/search_parsing.py:72 | `int(str(i)) == i` for every integer, negative ones included |
| Text.ParseIntPadded | lmfdb/search_parsing.py:72 | `int()` ignores surrounding whitespace and accepts a leading `+` |
| Text.ParseIntRejects | lmfdb/search_parsing.py:72 | `int()` fails on any text holding a character that is not whitespace, a digit, a sign or an underscore |

## Left out

- Database access (`db`, the `WebObj` constructors) and `lazy_attribute` caching: the collection of subgroup records is an input.
- GAP and Sage calls have no Dafny counterpart. These are `G`, `Pcgs`, `PcElementByExponents`, `IsomorphismFpGroupByPcgs`, `FreeGroupOfFpGroup` and `GroupHomomorphismByImagesNC`. `decode_as_pcgs` returns the exponent vector instead of a group element. The factorisation of the order is an input to `Sylow.SylowSubgroups`.
- `hom.Image` and `str` of free-group words are not modelled. The words GAP prints are inputs to `Presentation.PresentationText`, as token lists: the right-hand sides of the power and conjugation relations. The decoded permutation generators (`decode_as_perm`) are input texts.
- Presentation.PresentationText: the display form of the relators is promised only when every image is a handled word over the displayed generators (`ImagesOk`): well formed, with generators `f1` to `f<ngens>`. For other printed words the contract gives the string operations of lines 364-368 but not their effect.
- The classification of relators into power and conjugation relations (web_groups.py lines 299-328) is not modelled. As written it reads an undefined name `g`, so the power relations and the conjugation dictionary are inputs.
- RelatorText.WriteElement: the text is promised only for words whose generators are among `f1`..`f<ngens>`. For a higher generator the renaming is partial, as `RelatorText.WriteElementBeyondGens` shows.
- Presentation.ScanLoop and Presentation.BlockLoop: the loop bound is the number `n` of pc generators, a parameter. As written, the source reuses the name `m` from the classification loop. The unused `curgen` is not modelled.
- Display wrappers (`group_names_pretty`, the `*_tex` strings, `subgroup_layer_by_order`'s row formatting at line 196) and the rest of web_groups.py and search_parsing.py are not part of this model.
- `\d` in the regular expressions is modelled as the ASCII digits, and so are the digits `int()` accepts. Python also accepts other Unicode decimal digits in both places; the model rejects them.
- `str.capitalize` is modelled on ASCII letters only.
- RelatorText.Letter and every member that writes generator letters require fewer than 0xD800 - 97 generators, because Dafny characters exclude the surrogate range. Python's `chr` has no such gap.
- Lattice.SubgroupLayers: the dictionary key of a record is taken to be its label, as `subs[top]` with `top` a label assumes.
- Series.SpecialSearch: the source returns the dictionary key; the model returns the record's name, which is the key under the same assumption.
- Subgroups.MaxLabel: `max` on labels is Python's code-point string order.
- Series.SeriesTable: `series()` reads the four series attributes, which are the lazy results of `series_search`. The model calls `Series.SeriesSearch` for the letters `D`, `C`, `L`, `U`.
- SearchParsing.CollapseOrs: a `$or` entry whose value is not a list of clauses, on either side, is the `NotClauses` error rather than Python's behaviour on that value.
- SearchParsing.ParseRange2: only `parse_singleton=int` is modelled. The `type(arg) == parse_singleton` shortcut for a non-string argument does not arise from the callers modelled here.
- SearchParsing.ParseInts: the flash, the optional `redirect(url)` and the query left untouched are modelled as `Err(Invalid(inp))`. The contract does not state the stored value. That is given by `SearchParsing.ParseIntsRoundTrip` and by the contracts of `SearchParsing.ParseRange2` and `SearchParsing.CollapseOrs`.
- SearchParsing.ParseList: the flash and redirect are modelled as `Err(Invalid(...))`. A `ValueError` from `int()` is `Err(NotAnInteger(...))`. `test` is a pure function.
- Presentation.Relators: the contract gives the count and the first relator. The text of every relator is given by `Presentation.RelatorWordsText`.
- Presentation.PowerTexts and Presentation.ConjTexts: the contracts give only the number of texts. Which relations they come from, and in what order, is stated by `Presentation.PowerKeys` and `Presentation.ConjOrder`; what each text is, by `Presentation.PowerTokensText` and `Presentation.ConjTokensText`.
- The query dictionary is mutated in place in the source. The model returns the new query, and the old `$or` clauses are left unchanged, as the source's `dict.copy` ensures.
