# A verified model of the shop core of django-cython-internshala

The repository is a small Django shop. It has a product catalog with comma-separated tags,
one cart per user, orders that capture prices at checkout, like/dislike feedback, and a
tag-similarity recommender. This project models the part of it that computes and changes
state, and proves what that code promises:

- **Tags** (`text.dfy`, `models.dfy`): `Product.get_tags_list` is built from Python's
  `str.split(',')`, `str.strip()` and `str.lower()` on ASCII. `Text` models those three
  builtins and proves their split/join round trips. `Models.TagsList` is the list
  comprehension on top of them.
- **Recommender** (`recommender.dfy`): `calculate_similarity` is a Jaccard index computed
  as an exact fraction. `get_recommendations_py` is a scoring loop, then a stable
  descending sort, then the first three. The loop is specified as every product paired
  with its score, filtered by the loop body's two tests. The sort is an in-place insertion sort on an
  array, proved equal to a functional specification. The specification is proved to be a
  sorted, stable permutation.
- **Views** (`views.dfy`): the shop is one `Store` object. Its fields are the catalog, the
  set of users with a cart, the cart-row table, the order tables and the feedback table.
  `add_to_cart`, `remove_from_cart`, `view_cart`, `checkout` and `submit_feedback` are
  methods on it that keep a validity invariant. The product page's feedback sets,
  candidate pool and order-preserving display are pure functions.

Decisions taken where the code leaves room:

- Prices are exact integers of cents, because the source stores them as two-place
  decimals.
- Similarity scores are exact fractions; see "Left out" for why this gives the same
  answers as the code's floating point.
- Query results come in the order of the modelled sequences, which is the table's
  primary-key order for cart rows.

## Model

| member | source | states |
|---|---|---|
| Text.LowerChar | shop/models.py:16 | an upper-case ASCII letter becomes the letter 32 code points above it, its lower-case form; every other character is kept; the result is never upper-case, and it is whitespace, or a comma, exactly when the input is |
| Text.Lower | shop/models.py:16 | `lower()` keeps the length and lower-cases character by character, position `i` of the result being `LowerChar` of position `i`; so no upper-case letter is left, a position holds whitespace (a comma) after exactly when it did before, and lower-case text is unchanged |
| Text.LowerAppend | shop/models.py:16 | lower-casing a concatenation is concatenating the lower-cased parts |
| Text.LowerSlice | shop/models.py:16 | lower-casing a slice is slicing the lower-cased text |
| Text.LeadingSpaceSame | shop/models.py:16 | two texts with whitespace at the same positions start with the same amount of it |
| Text.TrailingSpaceSame | shop/models.py:16 | two texts with whitespace at the same positions end with the same amount of it |
| Text.StripSame | shop/models.py:16 | two texts with whitespace at the same positions are stripped at the same positions |
| Text.StripAt | shop/models.py:16 | the stripped text is the piece of the input that starts after the leading whitespace |
| Text.StripLength | shop/models.py:16 | the stripped text is as long as the input minus the whitespace at both ends, or empty for blank input |
| Text.LowerStrip | shop/models.py:16 | lower-casing the stripped text cuts the same piece out of the lower-cased input |
| Text.StripLower | shop/models.py:16 | `strip()` and `lower()` can be applied in either order |
| Text.LowerJoin | shop/models.py:16 | lower-casing a join with a separator that is not an upper-case letter is the join of the lower-cased parts |
| Text.SplitLower | shop/models.py:16 | splitting the lower-cased text at commas gives the lower-cased fields of the original |
| Text.Strip | shop/models.py:16 | `strip()` gives a piece of the input with no whitespace at either end, surrounded only by whitespace; it is empty exactly when the input is all whitespace |
| Text.Split | shop/models.py:16 | `split(',')`: the fields between separators, in order, empty ones included; there is always at least one field, since `"".split(',')` is `[""]` (`SplitFields`, `JoinSplit` and `SplitJoin` state the rest) |
| Text.SplitFields | shop/models.py:16 | `split(',')` gives one field more than there are commas, and no field contains a comma |
| Text.JoinSplit | shop/models.py:16 | joining the fields of `split(sep)` with `sep` gives back the input |
| Text.SplitJoin | shop/models.py:16 | splitting a join of a non-empty list of separator-free fields gives back the fields (the list must be non-empty because `"".split(',')` is `[""]`) |
| Text.SplitAppend | shop/models.py:16 | the fields of `a + sep + b` are the fields of `a` followed by those of `b` |
| Text.SplitField | shop/models.py:16 | text without a separator is a single field |
| Models.FieldToken | shop/models.py:16 | a field contributes at most one tag, and none exactly when it is blank (`if tag.strip()`) |
| Text.StripKeepsOut | shop/models.py:16 | `strip()` never introduces a character the text did not hold |
| Models.FieldTokenWellFormed | shop/models.py:16 | a comma-free field contributes only a non-empty, trimmed, lower-case, comma-free tag |
| Models.Tokens | shop/models.py:16 | the list comprehension `[tag.strip().lower() for tag in ... if tag.strip()]` over already-split fields (a definition; `TokensAppend`, `TokensEmpty` and `TokensWellFormed` state its properties) |
| Models.TokensAppend | shop/models.py:16 | the comprehension over two lists of fields is the comprehension over each, concatenated |
| Models.TokensEmpty | shop/models.py:16 | the comprehension yields nothing exactly when every field is blank |
| Models.TokensWellFormed | shop/models.py:16 | comma-free fields yield at most one token each, and every token is non-empty, trimmed, lower-case and comma-free |
| Models.TagsList | shop/models.py:15-16 | `get_tags_list`: the comprehension over the fields of `split(',')` (a definition; its properties are the `TagsList…` lemmas below) |
| Models.FieldTokenLower | shop/models.py:16 | a field and its lower-cased form contribute the same tag |
| Models.FlatMapPointwise | shop/models.py:16 | a comprehension over two field lists whose fields give the same result pointwise gives the same list |
| Models.TagsListLower | shop/models.py:15-16 | lower-casing the raw tag text does not change the tag list |
| Models.TagsListCaseInsensitive | shop/models.py:15-16 | two raw tag texts that agree up to ASCII letter case give the same tag list |
| Models.IsFeedbackValue | shop/models.py:56-61 | the feedback choices: exactly `LIKE` (1) and `DISLIKE` (-1) (a definition; `Views.FeedbackValid` and `Views.Store.SubmitFeedback` use it) |
| Models.LineTotal | shop/models.py:35-36 | `get_total_price`: the product's price times the row's quantity, in cents (a definition; `Views.CartTotalNonNegative` and `Views.SnapshotTotal` state its properties) |
| Models.TagsListWellFormed | shop/models.py:15-16 | every tag is non-empty, trimmed, lower-case and comma-free, and there is at most one tag more than there are commas |
| Models.TagsListAppend | shop/models.py:15-16 | the tags of `a,b` are the tags of `a` followed by the tags of `b`: order and duplicates are kept |
| Models.TagsListField | shop/models.py:15-16 | a comma-free text has no tag when blank, otherwise exactly its stripped, lower-cased form |
| Models.TagsListEmpty | shop/models.py:15-16 | a text has no tags exactly when it consists only of commas and whitespace |
| Recommender.AboveThreshold | shop/recommender_py.py:35 | `score > 0.1` on the exact fraction, with no rounding (a definition; `ThresholdIsOneTenth` relates it to the fraction 1/10) |
| Recommender.ThresholdIsOneTenth | shop/recommender_py.py:35 | the cut-off is "strictly above one tenth", stated on the fraction |
| Recommender.CalculateSimilarity | shop/recommender_py.py:3-17 | the score is a fraction between 0 and 1: the intersection is never larger than the union |
| Recommender.JaccardIndex | shop/recommender_py.py:7-17 | for a non-empty union the score is the intersection size over the union size; it is 0 exactly when the tag sets are disjoint, and 1 exactly when they are equal and non-empty |
| Recommender.JaccardBounds | shop/recommender_py.py:11-17 | on sets: the intersection is at most the union, empty exactly for disjoint sets, as large as the union exactly for equal sets; the union is empty only for two empty sets |
| Recommender.SimilaritySymmetric | shop/recommender_py.py:7-12 | the score does not depend on the order of its two arguments |
| Recommender.TagSet | shop/recommender_py.py:7-8 | `set(tags)`: the tags of the list without order or repetition (a definition; `SimilarityOfSets` states what depends on it) |
| Recommender.SimilarityOfSets | shop/recommender_py.py:7-8 | the score depends only on the tag sets, so order and duplicates in the lists do not matter |
| Recommender.ScoreOf | shop/recommender_py.py:24-33 | the similarity of the two products' parsed tag lists (a definition; `ScoreCaseInsensitive` and the `Candidates…` lemmas state its properties) |
| Recommender.Scores | shop/recommender_py.py:28-33 | every input product paired with its similarity to the current product's tags, in input order (a definition) |
| Recommender.Keep | shop/recommender_py.py:29-36 | the loop body's two tests over scored pairs: no more pairs than the input; `KeepSound` and `KeepComplete` state what is kept |
| Recommender.Candidates | shop/recommender_py.py:25-36 | the list the loop builds: no more pairs than input products; `CandidatesSound`, `CandidatesComplete` and `CandidatesPrefix` state its contents |
| Recommender.ScoreCaseInsensitive | shop/recommender_py.py:24-33 | two products whose tag texts agree up to ASCII letter case get the same score against any current product |
| Recommender.KeepSound | shop/recommender_py.py:28-36 | the `if` tests of the loop body keep only pairs from the scored input whose product has another id and whose score is above the threshold |
| Recommender.KeepComplete | shop/recommender_py.py:28-36 | every scored pair that passes both tests is kept |
| Recommender.CandidatesPrefix | shop/recommender_py.py:28-36 | one iteration appends the product with its score exactly when the product has another id and scores above the threshold, and otherwise leaves the list as it was |
| Recommender.CandidatesSound | shop/recommender_py.py:28-36 | every pair the loop keeps has another product's id, a score above the threshold equal to its similarity, and a product from the input |
| Recommender.CandidatesComplete | shop/recommender_py.py:28-36 | every input product with another id and a score above the threshold is kept, with its score |
| Recommender.Ranked | shop/recommender_py.py:39 | the kept candidates after the descending sort (a definition; `RankedFromCandidates` and the `SortByScore…` lemmas state its properties) |
| Recommender.Insert | shop/recommender_py.py:39 | one step of a stable insertion sort on the descending score (a definition; `InsertPerm`, `InsertSorted` and `InsertStable` state its properties) |
| Recommender.SortByScore | shop/recommender_py.py:39 | `sort(key=score, reverse=True)` as repeated insertion (a definition; `SortByScorePerm`, `SortByScoreSorted` and `SortByScoreStable` state its properties) |
| Recommender.InsertPerm | shop/recommender_py.py:39 | one insertion step adds exactly the inserted pair to the multiset |
| Recommender.InsertSorted | shop/recommender_py.py:39 | one insertion step keeps the list in non-increasing score order |
| Recommender.InsertStable | shop/recommender_py.py:39 | one insertion step puts a pair after the pairs of equal score that were already there |
| Recommender.SortByScorePerm | shop/recommender_py.py:39 | the sort is a permutation of its input |
| Recommender.SortByScoreSorted | shop/recommender_py.py:39 | the sort's output has non-increasing scores |
| Recommender.SortByScoreStable | shop/recommender_py.py:39 | for every score value, the pairs with that score appear in the same order as in the input (`sort(..., reverse=True)` is stable) |
| Recommender.ShiftPast | shop/recommender_py.py:39 | the inner loop shifts the lower-scored tail of the sorted prefix one place right and stops at the place where the specification's insertion puts the pair |
| Recommender.InsertLast | shop/recommender_py.py:39 | the in-place step inserts `a[i]` into the sorted prefix `a[..i]` exactly as the specification's insertion does, leaving the rest of the array untouched |
| Recommender.SortInPlace | shop/recommender_py.py:39 | after sorting the array in place, its contents are the specification's stable descending sort of its old contents |
| Recommender.ProductsOf | shop/recommender_py.py:42 | the final comprehension keeps the products of the pairs, one for one and in order |
| Recommender.Top | shop/recommender_py.py:39-42 | `recommendations[:3]` of the sorted candidates (a definition; `TopSound` and `TopComplete` state its properties) |
| Recommender.Recommend | shop/recommender_py.py:19-42 | the products of the first three sorted candidates (a definition; `RecommendSound`, `RecommendComplete` and `RecommendStable` state its properties) |
| Recommender.TopSound | shop/recommender_py.py:39-42 | the first three pairs: at most three, in non-increasing score order, each one qualifying and from the input |
| Recommender.RecommendSound | shop/recommender_py.py:19-42 | the result has at most three products, all from the input, none with the current product's id, each scoring above the threshold, in non-increasing score order |
| Recommender.RankedFromCandidates | shop/recommender_py.py:39 | every pair in the sorted list is one the loop kept |
| Recommender.FirstThreeComplete | shop/recommender_py.py:39-42 | in any scored list, a pair left out of the first three of the sorted list leaves more than three pairs, and scores no higher than the third |
| Recommender.TopComplete | shop/recommender_py.py:39-42 | a kept pair that misses the first three means three pairs were returned and it scores no more than the third |
| Recommender.RecommendComplete | shop/recommender_py.py:28-42 | a qualifying product that is not returned means three products were returned and it scores no more than the third |
| Recommender.RecommendStable | shop/recommender_py.py:39-42 | among returned products of equal score, the ones returned are the first ones of that score in the input, in input order |
| Recommender.NoTagsNoRecommendations | shop/recommender_py.py:24-36 | a current product without tags gets no recommendations |
| Recommender.ScoreProducts | shop/recommender_py.py:24-36 | the scoring loop returns exactly the specification's kept pairs, in input order |
| Recommender.FirstProducts | shop/recommender_py.py:42 | the copy of the first three pairs' products returns exactly the products of the first three pairs, in order |
| Recommender.GetRecommendations | shop/recommender_py.py:19-42 | the loop, the in-place sort and the top-three copy return exactly the specification's recommendation list |
| Views.FindLine | shop/views.py:66-69 | `get_or_create` finds no row exactly when no row of that cart is for that product; otherwise it finds the first such row |
| Views.IndexOfAppend | shop/views.py:66-69 | a row appended for a new pair does not move earlier lookups, and is found itself |
| Views.IndexOfDistinct | shop/views.py:66-69 | with at most one row per (cart, product), the lookup finds exactly that row |
| Views.FindItem | shop/views.py:79 | `get_object_or_404(CartItem, id=..., cart__user=...)` finds a row with that id in that user's cart, and fails exactly when there is none |
| Views.LinesOf | shop/views.py:92 | `cart.items.all()` contains only rows of that user's cart |
| Views.LinesOfMembers | shop/views.py:92 | the cart holds exactly the table's rows of that user |
| Views.LinesOfInCatalog | shop/views.py:92-93 | in a well-formed table, a cart's rows name catalog products, so their total is defined |
| Views.OtherLines | shop/views.py:123 | after `cart_items.delete()`, no remaining row belongs to that user |
| Views.OtherLinesMembers | shop/views.py:123 | the remaining rows are exactly the other users' rows |
| Views.OtherLinesHasNoLines | shop/views.py:123 | after the delete, the user's cart is empty |
| Views.OtherLinesValid | shop/views.py:123 | deleting one cart's rows keeps the table well formed |
| Views.CartTotal | shop/views.py:93 | `sum(item.get_total_price() ...)`, also used by checkout (shop/views.py:109), over a cart's rows at current catalog prices (a definition; `CartTotalAppend`, `CartTotalNonNegative` and `SnapshotTotal` state its properties) |
| Views.CartTotalAppend | shop/views.py:93 | the cart total adds up over any split of the rows |
| Views.CartTotalNonNegative | shop/models.py:35-36 | with prices that are not negative, a cart's total is not negative |
| Views.Snapshot | shop/views.py:115-121 | there is one order row per cart row |
| Views.SnapshotRows | shop/views.py:115-121 | order row `i` records cart row `i`'s product, its quantity and the product's price at checkout |
| Views.SnapshotTotal | shop/views.py:109-121 | the order total computed from the cart equals the sum of the order rows' price times quantity |
| Views.SnapshotSnoc | shop/views.py:115-121 | the loop's work after `i + 1` rows is its work after `i` rows plus row `i`'s order row |
| Views.Quantity | shop/views.py:66-73 | the quantity of a (cart, product) pair: that row's quantity, or 0 without a row (a definition; the `Quantity…` lemmas and `AddLineQuantity`/`RemoveLineQuantity` state how the handlers change it) |
| Views.QuantityUpdate | shop/views.py:71-73 | changing one row's quantity changes only the quantity of that row's (cart, product) pair |
| Views.QuantityAppend | shop/views.py:66-69 | a new row gives its pair that row's quantity, and every other pair keeps its quantity |
| Views.QuantityDelete | shop/views.py:84-85 | deleting a pair's only row leaves that pair with quantity 0 and every other pair as it was |
| Views.LinesValidAppend | shop/views.py:66-69 | creating a default row for a pair that has none keeps the table well formed |
| Views.LinesValidUpdate | shop/views.py:71-73 | setting a row's quantity to a positive value keeps the table well formed |
| Views.LinesValidDelete | shop/views.py:84-85 | deleting a row keeps the table well formed |
| Views.FeedbackSets | shop/views.py:22-32 | the liked and disliked sets hold exactly the products the visitor marked 1 and -1; they are disjoint, and both are empty for a visitor who is not signed in |
| Views.Exclude | shop/views.py:39 | `exclude(pk=...)`: no remaining product has that id, all come from the input, and every other product remains |
| Views.SkipIsExclusion | shop/recommender_py.py:28-30 | skipping the current id inside the loop gives the same result as excluding it from the input beforehand, as the product page does |
| Views.CandidatePool | shop/views.py:37-40 | the pool never contains the viewed product |
| Views.CandidatePoolSound | shop/views.py:37-40 | every entry of the pool is an input product's id with that product's parsed tags |
| Views.CandidatePoolComplete | shop/views.py:37-40 | every input product other than the viewed one is in the pool with its parsed tags |
| Views.DisplayOrder | shop/views.py:50-52 | only catalog products are shown, and no more of them than ids were recommended |
| Views.DisplayOrderSound | shop/views.py:52 | `filter(pk__in=ids)`: every product shown has a recommended id and is the catalog's product under that id |
| Views.DisplayOrderComplete | shop/views.py:52 | every recommended id that names a catalog product has that product shown |
| Views.FirstSeenOrder | shop/views.py:50-52 | every shown product's id occurs among the recommended ids, and the first places they occur strictly increase along the shown list (a definition, used by `DisplayOrderFirstSeen`) |
| Views.DisplayOrderFirstSeen | shop/views.py:50-52 | `order_by(preserved_order)`: products are shown by the first position of their id in the recommended ids, so each at most once even for repeated ids |
| Views.FirstSeenShift | shop/views.py:50-52 | a list ordered by first appearance in the ids after the first, none of them the first id, is ordered by first appearance in all the ids, every position past the first |
| Views.FirstSeenCons | shop/views.py:50-52 | putting the product of the first id in front of such a list keeps it ordered by first appearance |
| Views.IndexOfTail | shop/views.py:50-52 | an id that is not first is found one place later than in the ids after the first |
| Views.DisplayOrderPreserved | shop/views.py:50-52 | distinct recommended ids that all exist are shown one for one, in exactly the recommended order |
| Views.LinesValid | shop/views.py:65-69 | the cart-row table is well formed: every row is in an existing cart (shop/models.py:28), names a catalog product, has a positive quantity and an issued id, ids are distinct, and there is one row per (cart, product), which `get_or_create` relies on (a definition). Positive quantities come from the handlers, not the column type, since `PositiveIntegerField` admits 0: a new row gets `default=1` (shop/models.py:30), an existing one gains one (shop/views.py:72), and a quantity is lowered only when it is above 1 (shop/views.py:81-85) |
| Views.FeedbackValid | shop/models.py:55-69 | every feedback row names a catalog product and holds `LIKE` or `DISLIKE`; one row per (user, product) as `unique_together` demands is given by the map's keys (a definition) |
| Views.Store.Valid | shop/models.py:20-69 | the store invariant: the catalog is keyed by product id, the cart table and the feedback table are well formed, and every order id was issued (a definition; every handler keeps it) |
| Views.Store.constructor | shop/models.py:20-69 | the store starts with the given catalog, no carts, no cart rows, no orders, no order rows and no feedback, both next ids 0, and is well formed |
| Views.Store.AddToCart | shop/views.py:62-75 | an unknown product changes nothing. Otherwise the user has a cart afterwards, the cart table becomes `AddLine` of the old one, the next row id moves on exactly when a row was created, the other tables are unchanged, and the store stays well formed |
| Views.Store.AddRow | shop/views.py:65-73 | the user has a cart afterwards, the cart table becomes `AddLine` of the old one, the next row id moves on exactly when no row for the pair existed |
| Views.Store.RemoveFromCart | shop/views.py:77-87 | nothing happens unless a row with that id is in the user's own cart. Otherwise the cart table becomes `RemoveLine` of the old one at that row, everything else is unchanged, and the store stays well formed |
| Views.AddLine | shop/views.py:65-73 | the cart-row table after adding a catalog product (a definition; `AddLineQuantity` and `AddLineValid` state its properties) |
| Views.RemoveLine | shop/views.py:81-85 | the cart-row table after removing a found row (a definition; `RemoveLineQuantity` and `RemoveLineValid` state its properties) |
| Views.AddLineQuantity | shop/views.py:62-75 | adding a product: an existing row gains one, or a row with the default quantity 1 (shop/models.py:30) is appended; either way that (cart, product) quantity rises by exactly one and every other quantity is unchanged |
| Views.RemoveLineQuantity | shop/views.py:77-87 | removing a row: a quantity above 1 goes down by one, a quantity of 1 deletes the row; either way that pair's quantity drops by exactly one and every other pair, including every other user's cart, is unchanged |
| Views.AddThenRemove | shop/views.py:62-87 | removing the row an addition landed in restores every quantity |
| Views.AddLineValid | shop/views.py:62-75 | adding a catalog product keeps the table well formed: rows in existing carts, for catalog products, with positive quantities, distinct ids below the next id, and one row per (cart, product) |
| Views.RemoveLineValid | shop/views.py:77-87 | removing a row keeps the table well formed |
| Views.LinesValidDistinct | shop/views.py:66-69 | a well-formed table has one row per (cart, product) and only positive quantities |
| Views.Store.ViewCart | shop/views.py:89-99 | creates the cart if missing and returns exactly the user's rows and their total; no row changes |
| Views.Store.Checkout | shop/views.py:101-124 | without a cart, or with an empty one, nothing changes. Otherwise one order carries the cart's total, one order row per cart row is appended, the total equals the order rows' sum, and the user's rows are gone while every other cart keeps its rows |
| Views.Store.PlaceOrder | shop/views.py:109-124 | for a cart with rows: the new order has the next order id and the cart's total, the order rows are the cart's snapshot and add up to that total, and the user's rows are deleted while every other row stays |
| Views.Store.RecordOrder | shop/views.py:109-121 | the order gets the next order id and the cart's total, and the order-row table gains exactly the cart's snapshot; the cart table is not touched |
| Views.Store.AppendOrderRows | shop/views.py:115-121 | the loop appends exactly the cart's snapshot to the order-row table and changes nothing else |
| Views.Store.SubmitFeedback | shop/views.py:128-142 | an unknown product changes nothing. A value of 1 or -1 (shop/models.py:56-57) replaces the user's one entry for that product (shop/models.py:67-69); any other value changes nothing. The feedback table keeps only the two allowed values |

## Left out

- The Cython module `recommender_cy` is not part of this model. That includes the feedback re-ranking the product page passes the liked and disliked sets to (shop/views.py:43-48). So the product page is modelled up to its inputs: the feedback sets and the candidate pool. It is also modelled from its output on: the display order of whatever ids come back.
- `product_list` (shop/views.py:12-14) is a plain query with no logic and is not modelled.
- Recommender.CalculateSimilarity: returns the exact fraction `|A∩B| / |A∪B|` instead of a floating-point division. The argument rests on the declared `max_length=255` of the tag field (shop/models.py:10). It is an assumption, not a guarantee: SQLite does not enforce the length, and plain ORM writes skip validation. With it, a product has at most 128 tags and every denominator is at most 256. Two different fractions with such denominators differ by far more than a double's rounding. The argument also holds for much longer tag texts: distinct fractions with denominators below 2^26 still differ by more than 2^-52, which is more than two correctly rounded results in [0, 1] can move. Correctly rounded division therefore maps equal fractions to equal doubles, keeps distinct fractions in the same order, and leaves every fraction above 1/10 above the double `0.1`. The comparisons, the threshold and the sort therefore agree with the exact model.
- The sort: Python's `list.sort` (Timsort) is replaced by a stable insertion sort on the same key. Two stable sorts on one key produce the same list, so only the algorithm differs, not the result.
- Models.LineTotal: a price is an unbounded integer of cents. The `max_digits=10` limit of the decimal fields (shop/models.py:8, 41, 50) and the database error on overflow are not modelled.
- Views.AddLine: a quantity is an unbounded natural number. The upper bound of `PositiveIntegerField` on `CartItem.quantity` (shop/models.py:30), which `quantity += 1` (shop/views.py:72) can reach, and the database error past it are not modelled.
- HTTP, templates, redirects, `login_required` and the ORM are not modelled: the signed-in user is a parameter and "404" is a `false` or `NoCart` result. The `int()` conversion in `submit_feedback` (shop/views.py:131) is also left out: the model takes an integer, and does not model a missing or non-numeric value raising an error.
- Query order: Django promises none without `order_by`, so the model fixes one. Candidate products come in the order of the given sequence. Cart rows come in the table's insertion (primary-key) order.
- Concurrency and transactions are not modelled: each handler runs alone.
- Deleting products, users or carts is not modelled. That includes the `CASCADE` and `PROTECT` rules, since no modelled handler does it. For the same reason the catalog is a constant.
- Text: ASCII only. Python's Unicode whitespace and case mapping are not modelled.
- `__str__` methods, `created_at` timestamps, names, descriptions and categories are presentation only; they are left out.
- shop/urls.py, ecom_project/urls.py, shop/admin.py and setup.py are routing, admin registration and build configuration, with no behaviour to model.
