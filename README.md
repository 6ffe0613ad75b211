# article-cli in Dafny

article-cli is a command-line article manager for a shop that sells books and
DVDs. Each article has an id, a title, a publisher, a release year and a base
price. Its price is the base price less a discount:

- a book gets a discount for its age and for having many pages;
- a DVD gets a discount that depends on its age rating.

A store (`ArticleDAO`, implemented by `SerializedArticleDAO`) keeps the
articles in a list and writes the whole list to a file after every change.
A service (`ArticleManagement`) forwards to the store and answers these
statistics queries:

- how many articles, books and DVDs there are;
- the mean price;
- the ids of the oldest articles.

The repository keeps four versions of these classes:

- the **default-package revision**, the complete one: `Article`, `Book`, `DVD`,
  `ArticleDAO`, `SerializedArticleDAO`, `ArticleManagement`;
- the **flat `articlecli` package**: `Article`, `Book`, `DVD`,
  `SerializedArticleDAO`;
- the **`articlecli` package split** into `contracts`, `articles` and
  `storage`, together with `articlecli/ArticleManagement.java`, which imports
  that split;
- the **`org.dakralex.plcarticlemgmt` package**: `contracts.Article`,
  `articles.Book`, `articles.DVD`.

The model takes each version on its own terms.

- **Default revision** (`Catalogue`, `CatalogueStore`, `CatalogueQueries`):
  - Articles are immutable, so they are datatype values.
  - A base price is a whole number of cents.
  - The discount chain is run through the BigDecimal model and proved to be
    the half-up share of the base price, in whole cents.
  - The store is a class. It holds the list and the file contents, and its
    save and delete methods are specified by the pure functions `Saved` and
    `Deleted`.
- **The three secondary versions** (`FlatArticles`, `FlatStore`,
  `PackagedArticles`, `PackagedStore`, `PackagedQueries`, `DakralexArticles`):
  - Their articles have validating setters that change fields in place, so an
    article is a class.
  - A constructor runs the setters in order, and the first setter that fails
    decides the exception (`Wrappers.FirstFailure`).
  - Store lists hold object references. Removal works by reference, as
    `List.remove(Object)` and `removeAll` do for classes without `equals`.
- **Shared modules:**
  - `Decimal` models the BigDecimal operations the code uses: `add`,
    `subtract`, `multiply`, `setScale`, and `divide` with the HALF_UP rounding
    mode.
  - `AgeRatings` is the rating enum with its lookup and discount table.
  - `JavaText` is `String.isBlank`.
  - `SnapshotFiles` is what a store's file can hold.
  - `SnapshotPricing` is the discount rule the three secondary versions share.

The current year is a parameter wherever the code reads `Year.now()`. The file
is a field standing for the bytes on disk. It holds one of four states:
missing, a serialized list, a bare stream header, or something unreadable.

## Model

| member | source | states |
|---|---|---|
| Decimal.RoundHalfUp | src/main/java/Article.java:194-197 | HALF_UP division of integers: the result is within half a unit of n/d, and ties go away from zero (the half-open interval `IsHalfUpQuotient`) |
| Decimal.RoundHalfUpUnique | src/main/java/Article.java:194-197 | exactly one integer satisfies the HALF_UP interval, so any such integer is the rounded quotient |
| Decimal.RoundHalfUpExact | src/main/java/Article.java:194 | dividing an exact multiple rounds to the exact quotient |
| Decimal.RoundHalfUpScaled | src/main/java/ArticleManagement.java:88 | scaling dividend and divisor by the same positive factor does not change the rounded quotient |
| Decimal.FromInt | src/main/java/ArticleManagement.java:88 | `new BigDecimal(int)` has scale 0 and the integer's value |
| Decimal.IsNegative | src/main/java/Article.java:108 | `compareTo(ZERO) < 0` holds exactly when the value is negative |
| Decimal.Add | src/main/java/ArticleManagement.java:79 | `add` is exact, at the larger of the two scales |
| Decimal.AddSameScale | src/main/java/ArticleManagement.java:79 | at equal scales, addition adds the unscaled values |
| Decimal.ZeroAddIdentity | src/main/java/ArticleManagement.java:79 | `ZERO.add(b)` is b, scale included |
| Decimal.Sub | src/main/java/Article.java:208 | `subtract` is exact, at the larger of the two scales |
| Decimal.Mul | src/main/java/Article.java:197 | `multiply` is exact, at the sum of the scales |
| Decimal.SetScale | src/main/java/Article.java:208 | `setScale(s, HALF_UP)` keeps the value when no digit is dropped, otherwise rounds half-up |
| Decimal.DivideToScale | src/main/java/Article.java:194 | `divide(b, s, HALF_UP)` is the half-up quotient at scale s |
| Decimal.Divide | src/main/java/ArticleManagement.java:88 | `divide(b, HALF_UP)` is the half-up quotient at the dividend's scale |
| Decimal.DivideByCount | src/main/java/ArticleManagement.java:88 | dividing by a positive count keeps the scale and rounds the unscaled value divided by the count |
| Decimal.DivideIntsToScale | src/main/java/Article.java:194 | an integer divided by an integer at scale s is the half-up quotient of n·10^s by d |
| AgeRatings.MinAge | src/main/java/DVD.java:81-92 | every rating's minimum age is one of 0, 6, 12, 16, 18 |
| AgeRatings.ByMinAge | src/main/java/DVD.java:94-103 | the lookup succeeds exactly for the five class ages, and the rating found has that minimum age |
| AgeRatings.ByMinAgeOfMinAge | src/main/java/DVD.java:94-107 | looking up a rating's own age gives the rating back |
| AgeRatings.MinAgeIncreasing | src/main/java/DVD.java:81-85 | declaration order is the order of minimum ages, in both directions |
| AgeRatings.MinAgeInjective | src/main/java/DVD.java:81-88 | no two ratings share a minimum age |
| AgeRatings.DiscountPercentage | src/main/java/DVD.java:58-67 | the DVD discount tier is a multiple of 5, at most 20 |
| AgeRatings.DiscountPercentageDecreasing | src/main/java/DVD.java:58-67 | a higher minimum age gives a smaller discount, and only then |
| JavaText.IsWhitespace | src/main/java/articlecli/Article.java:53-57 | space, tab, line feed and carriage return count as white space for `isBlank`; the no-break spaces U+00A0, U+2007 and U+202F and the ASCII letters and digits do not |
| JavaText.IsBlank | src/main/java/articlecli/Article.java:53-57 | a text is blank exactly when every character is white space, so the empty text is blank |
| JavaText.EmptyIsBlank | src/main/java/articlecli/Article.java:53-57 | "" and " " are blank and "a" is not, so `isBlank` refuses white-space-only text, not only empty text |
| Catalogue.NewBook | src/main/java/Book.java:34-38 | construction fails exactly for a future release year, with "Error: Invalid release year."; otherwise it stores every argument and the age is not negative |
| Catalogue.NewDvd | src/main/java/DVD.java:32-37 | succeeds exactly when the year is not in the future and the age is a class age; the year check comes first; the stored rating has the given minimum age |
| Catalogue.GetAge | src/main/java/Article.java:161-163 | the release year plus the age is the current year; the age is not negative for a year not in the future |
| Catalogue.GetMinAge | src/main/java/DVD.java:53-55 | a DVD's minimum age is a class age whose lookup gives back its rating |
| Catalogue.AgeDiscount | src/main/java/Book.java:50-52 | the age term is at most 30, is exactly 30 from six years on, and is five per year below that |
| Catalogue.PageBonus | src/main/java/Book.java:54 | the page term is 0 or 3, and it is 3 exactly above 1000 pages |
| Catalogue.BookDiscountPercentage | src/main/java/Book.java:50-57 | a book's percentage lies between 0 and 33, and is 30 plus the page bonus from six years on |
| Catalogue.AgeDiscountMonotone | src/main/java/Book.java:52 | the age term never falls as the book ages |
| Catalogue.PageBonusBoundary | src/main/java/Book.java:54 | the 3-point bonus starts above 1000 pages, not at 1000 |
| Catalogue.DiscountPercentage | src/main/java/Article.java:183 | a valid article's percentage lies between 0 and 33; a DVD's between 0 and 20 |
| Catalogue.PercentageFraction | src/main/java/Article.java:194 | an integer percentage divided by 100 at scale 2 is exact: it is pct hundredths |
| Catalogue.DiscountFor | src/main/java/Article.java:192-198 | the discount in cents is basePrice·pct/100 rounded half-up, which is (basePrice·pct + 50) / 100 when that is not negative |
| Catalogue.PriceFor | src/main/java/Article.java:207-209 | the price in cents is the base price less the discount; no percentage means no change |
| Catalogue.PriceWithinBasePrice | src/main/java/Article.java:192-209 | for a percentage from 0 to 100, both discount and price lie between 0 and the base price |
| Catalogue.Discount | src/main/java/Article.java:192-198 | an article's discount is within half a cent of the exact share |
| Catalogue.Price | src/main/java/Article.java:207-209 | an article's price has scale 2, is the base price less the discount, and lies between 0 and the base price for a valid article |
| Catalogue.NewBookPriceExample | src/main/java/Book.java:50-57 | a new 500-page book at 100.00 costs 100.00 |
| Catalogue.OldBookPriceExample | src/main/java/Book.java:50-57 | a ten-year-old 1500-page book earns 33% and costs 67.00 instead of 100.00 |
| Catalogue.DvdPriceExamples | src/main/java/DVD.java:58-67 | a 12-rated DVD at 50.00 costs 45.00, an 18-rated one 50.00, and minimum age 7 is "Error: Invalid age rating." |
| Catalogue.FutureYearRejected | src/main/java/Article.java:39 | next year's release is refused for both variants |
| SnapshotFiles.Load | src/main/java/SerializedArticleDAO.java:30-37 | a missing file loads as the empty list and a serialized list as itself; anything else is a deserialization error |
| CatalogueStore.FirstIndexOf | src/main/java/SerializedArticleDAO.java:45-47 | none is found exactly when no article has the id; otherwise the index is the first one with that id |
| CatalogueStore.Find | src/main/java/ArticleDAO.java:17-23 | `getArticle` returns null exactly when no article has the id, and otherwise the first listed article with it |
| CatalogueStore.Saved | src/main/java/ArticleDAO.java:25-32 | a save is refused with AlreadyExists exactly when the id is taken; otherwise the article is appended, and distinct ids stay distinct |
| CatalogueStore.RemoveAt | src/main/java/SerializedArticleDAO.java:72 | removing one index shortens the list by one and keeps the other articles in order |
| CatalogueStore.RemoveAtDistinct | src/main/java/SerializedArticleDAO.java:72 | with distinct ids, after the removal the ids are still distinct and the removed id is gone |
| CatalogueStore.Deleted | src/main/java/ArticleDAO.java:34-41 | a delete is refused with NotFound exactly when no article has the id; otherwise it removes the first such article, and with distinct ids no article with that id remains |
| CatalogueStore.ArticleStore.Open | src/main/java/SerializedArticleDAO.java:30-37 | the constructor succeeds exactly when the file loads, and then holds the loaded list |
| CatalogueStore.ArticleStore.GetArticleList | src/main/java/SerializedArticleDAO.java:40-42 | the list is returned as a value that cannot be changed through it |
| CatalogueStore.ArticleStore.GetArticle | src/main/java/SerializedArticleDAO.java:45-47 | lookup is `Find` on the current list |
| CatalogueStore.ArticleStore.SaveArticle | src/main/java/SerializedArticleDAO.java:50-61 | a refused save changes neither list nor file; otherwise both become the `Saved` list |
| CatalogueStore.ArticleStore.DeleteArticle | src/main/java/SerializedArticleDAO.java:64-75 | a refused delete changes neither list nor file; otherwise both become the `Deleted` list |
| CatalogueStore.WrittenListReloads | src/main/java/SerializedArticleDAO.java:83-108 | what a save or delete writes reads back as the same list |
| CatalogueStore.DuplicateSaveKeepsFile | src/main/java/SerializedArticleDAO.java:50-56 | opening a one-article file, saving that id again and reopening gives back the one-article list |
| CatalogueQueries.Books | src/main/java/ArticleManagement.java:51-53 | the filtered list holds exactly the listed books |
| CatalogueQueries.Dvds | src/main/java/ArticleManagement.java:60-62 | the filtered list holds exactly the listed DVDs |
| CatalogueQueries.BooksAppend | src/main/java/ArticleManagement.java:51-53 | the book filter keeps list order: it distributes over concatenation |
| CatalogueQueries.DvdsAppend | src/main/java/ArticleManagement.java:60-62 | the DVD filter keeps list order: it distributes over concatenation |
| CatalogueQueries.FiltersMultiplicity | src/main/java/ArticleManagement.java:51-62 | each filter keeps every copy of a listed book (DVD) and nothing else, so each count is exactly the number of listed books (DVDs) |
| CatalogueQueries.BooksAndDvdsPartition | src/main/java/ArticleManagement.java:42-62 | the book count plus the DVD count is the article count |
| CatalogueQueries.PriceSum | src/main/java/ArticleManagement.java:69-80 | the sum is `ZERO` for no articles, and otherwise the exact total of the prices at scale 2 |
| CatalogueQueries.TotalCentsAppend | src/main/java/ArticleManagement.java:78-80 | adding an article to the end adds its price to the total |
| CatalogueQueries.TotalCentsBounds | src/main/java/ArticleManagement.java:78-80 | for valid articles the total lies between 0 and the total of the base prices |
| CatalogueQueries.PriceMean | src/main/java/ArticleManagement.java:87-89 | an empty list is a division by zero; otherwise the mean has scale 2 and is the total divided by the count, rounded half-up (within half a cent) |
| CatalogueQueries.MinReleaseYear | src/main/java/ArticleManagement.java:97-100 | the reduction yields a listed release year that no other listed year undercuts |
| CatalogueQueries.OldestReleaseYear | src/main/java/ArticleManagement.java:97-100 | an empty list throws NoSuchElementException; otherwise the earliest release year |
| CatalogueQueries.IdsReleasedIn | src/main/java/ArticleManagement.java:109-112 | exactly the ids of the articles of that year |
| CatalogueQueries.IdsReleasedInAppend | src/main/java/ArticleManagement.java:112 | the filter keeps list order: it distributes over concatenation |
| CatalogueQueries.OldestArticleIds | src/main/java/ArticleManagement.java:107-113 | an empty list throws; otherwise a non-empty list holding exactly the ids of the articles no other article predates, and it is the in-order `IdsReleasedIn` filter at the minimum year, so ids come in list order, one per article |
| CatalogueQueries.PriceMeanExample | src/main/java/ArticleManagement.java:87-89 | new books at 10.00 and 20.00 average 15.00 |
| CatalogueQueries.OldestArticleIdsExample | src/main/java/ArticleManagement.java:107-113 | with years 2000, 2010, 2000 the result is the first and third ids, in that order |
| CatalogueQueries.ArticleManagement.constructor | src/main/java/ArticleManagement.java:17-19 | the service keeps the store it is given |
| CatalogueQueries.ArticleManagement.GetArticleList | src/main/java/ArticleManagement.java:21-23 | forwards to the store's list |
| CatalogueQueries.ArticleManagement.GetArticle | src/main/java/ArticleManagement.java:25-27 | forwards to `Find` on the store's list |
| CatalogueQueries.ArticleManagement.SaveArticle | src/main/java/ArticleManagement.java:29-31 | has the store's save effect on the store's list and file |
| CatalogueQueries.ArticleManagement.DeleteArticle | src/main/java/ArticleManagement.java:33-35 | has the store's delete effect on the store's list and file |
| Wrappers.FirstFailure | src/main/java/articlecli/Article.java:31-37 | the setters run in order: the run passes exactly when every check passes, and otherwise fails with the first failing check |
| Wrappers.FirstFailureCons | src/main/java/articlecli/Article.java:31-37 | one step of the run: a failing first setter ends it with its error, a passing one hands on to the remaining setters |
| Wrappers.FirstFailureOfSix | src/main/java/articlecli/Article.java:31-37 | six setters in a row: the outcome is the first failing one's, or a pass when none fails |
| SnapshotPricing.AgePercentage | src/main/java/articlecli/Book.java:27 | `Math.max(5 * age, 30)`: the age term is never below 30 and is one of the two |
| SnapshotPricing.BookPercentage | src/main/java/articlecli/Book.java:27-29 | the age term plus 3 above 1000 pages; always at least 30 |
| SnapshotPricing.WholeFraction | src/main/java/articlecli/Book.java:31 | a percentage divided by 100 at the dividend's scale 0 is a whole number, rounded half-up; below 50 it is 0 |
| SnapshotPricing.DiscountAtCents | src/main/java/articlecli/Book.java:31-33 | for a base price in cents, multiplying by the whole fraction and rescaling to 2 digits is exact: the cents times the whole number |
| SnapshotPricing.DiscountAt | src/main/java/articlecli/Book.java:31-33 | the discount has scale 2; for a base price in cents it is the base price times that whole number |
| SnapshotPricing.PriceAtCents | src/main/java/articlecli/Article.java:107-109 | for a base price in cents, the base price less the discount is the cents times (1 − whole fraction), before any rescaling |
| SnapshotPricing.RescaledPriceAt | src/main/java/articlecli/Article.java:107-109 | the price at scale 2 is the base price times (1 − whole fraction) |
| SnapshotPricing.WholeFractionOfNonNegative | src/main/java/articlecli/Book.java:31 | for a non-negative percentage the whole fraction is (p + 50) / 100 |
| SnapshotPricing.YoungBookFraction | src/main/java/articlecli/Book.java:25-34 | up to nine years, a book's whole fraction is 0 |
| SnapshotPricing.MiddleAgedBookFraction | src/main/java/articlecli/Book.java:25-34 | from ten to twenty-nine years, it is 1 |
| SnapshotPricing.OldBookFraction | src/main/java/articlecli/Book.java:25-34 | from thirty to forty-nine years, it is 2 |
| SnapshotPricing.DvdFraction | src/main/java/articlecli/DVD.java:47-61 | every DVD tier has whole fraction 0 |
| SnapshotPricing.ZeroAtAnyScale | src/main/java/org/dakralex/plcarticlemgmt/articles/DVD.java:59-61 | a zero discount stays zero through `setScale(2)` from any scale |
| SnapshotPricing.DvdDiscountZero | src/main/java/org/dakralex/plcarticlemgmt/articles/DVD.java:51-61 | a DVD's discount is 0.00 whatever the base price's scale, because every tier's whole fraction is 0 |
| SnapshotPricing.YoungBookPrice | src/main/java/articlecli/Book.java:25-34 | a book of at most nine years sells at its base price |
| SnapshotPricing.MiddleAgedBookPrice | src/main/java/articlecli/Book.java:25-34 | a book of ten to twenty-nine years sells for 0.00 |
| SnapshotPricing.OldBookPrice | src/main/java/articlecli/Book.java:25-34 | a book of thirty to forty-nine years has the negated base price as its price |
| SnapshotPricing.DvdPrice | src/main/java/articlecli/DVD.java:47-61 | a DVD sells at its base price whatever its rating |
| FlatArticles.IdCheck | src/main/java/articlecli/Article.java:43-47 | `setId` accepts exactly the positive ids |
| FlatArticles.TextCheck | src/main/java/articlecli/Article.java:53-57 | `setTitle` (and `setPublisher`, lines 81-86) accept exactly the non-blank texts |
| FlatArticles.ReleaseYearCheck | src/main/java/articlecli/Article.java:63-71 | accepts exactly 1436 up to the current year, otherwise "Error: Invalid release year." |
| FlatArticles.BasePriceCheck | src/main/java/articlecli/Article.java:92-96 | accepts exactly the prices that are not negative |
| FlatArticles.CountCheck | src/main/java/articlecli/Book.java:40-46 | `setPages` (and `setLength`, DVD.java 28-32) accept exactly positive counts |
| FlatArticles.StoredBasePrice | src/main/java/articlecli/Article.java:92-103 | an accepted price is stored non-negative at scale 2 |
| FlatArticles.BookChecks | src/main/java/articlecli/Book.java:18-22 | the Book constructor's setter checks in order: they all pass exactly when the id is positive, title and publisher are not blank, the year lies from 1436 to the current year, the price is not negative and the pages are positive; the year error is the outcome exactly when id and title pass and the year does not |
| FlatArticles.DvdChecks | src/main/java/articlecli/DVD.java:17-22 | the same for the DVD constructor, with the length in place of the pages |
| FlatArticles.BookChecksValid | src/main/java/articlecli/Book.java:18-22 | arguments that pass every Book check make an article that holds every field invariant, with a release year not in the future |
| FlatArticles.DvdChecksValid | src/main/java/articlecli/DVD.java:17-22 | the same for a DVD |
| FlatArticles.PercentageOf | src/main/java/articlecli/DVD.java:47-55 | a book's percentage is the max rule, a DVD's the rating tier |
| FlatArticles.PriceOf | src/main/java/articlecli/Article.java:107-109 | a price is the base price times (1 − the whole fraction of the percentage) at scale 2 |
| FlatArticles.DvdSellsAtBasePrice | src/main/java/articlecli/DVD.java:47-61 | a valid DVD's price is its base price |
| FlatArticles.BookPriceByAge | src/main/java/articlecli/Book.java:25-34 | a valid book costs its base price up to nine years, 0.00 from ten to twenty-nine, and minus its base price from thirty to forty-nine |
| FlatArticles.Article.SetId | src/main/java/articlecli/Article.java:43-47 | the id changes exactly when the check passes; nothing else may change |
| FlatArticles.Article.SetTitle | src/main/java/articlecli/Article.java:53-57 | the title changes exactly when the check passes |
| FlatArticles.Article.SetReleaseYear | src/main/java/articlecli/Article.java:63-71 | the year changes exactly when the check passes |
| FlatArticles.Article.SetPublisher | src/main/java/articlecli/Article.java:81-86 | the publisher changes exactly when the check passes |
| FlatArticles.Article.SetBasePrice | src/main/java/articlecli/Article.java:92-103 | an accepted price is stored after `setScale(2, HALF_UP)`; a refused one leaves the field alone |
| FlatArticles.Article.SetPages | src/main/java/articlecli/Book.java:40-46 | the pages change exactly when positive |
| FlatArticles.Article.SetLength | src/main/java/articlecli/DVD.java:28-32 | the length changes exactly when positive, and the rating is kept |
| FlatArticles.Article.SetAgeRating | src/main/java/articlecli/DVD.java:38-40 | the rating is replaced and the length kept |
| FlatArticles.Article.SetAgeRatingByMinAge | src/main/java/articlecli/DVD.java:42-44 | an unknown age throws "Error: Invalid age rating." before anything changes; a known one stores the rating with that age |
| FlatArticles.Article.GetAge | src/main/java/articlecli/Article.java:73-75 | the age is the years since release, and not negative for a past year |
| FlatArticles.Article.GetDiscount | src/main/java/articlecli/DVD.java:47-61 | the discount has scale 2, and is the base price times the whole fraction |
| FlatArticles.Article.GetPrice | src/main/java/articlecli/Article.java:107-109 | the price is `PriceOf` of the fields; a valid DVD sells at its base price |
| FlatArticles.Article.NewBook | src/main/java/articlecli/Book.java:18-22 | fails with the first failing setter check; otherwise a fresh object holding the checked values and the rescaled price, satisfying every field invariant |
| FlatArticles.Article.NewDvd | src/main/java/articlecli/DVD.java:17-22 | the same for a DVD, the rating stored as given |
| FlatStore.FirstWithId | src/main/java/articlecli/SerializedArticleDAO.java:39-41 | none is found exactly when no listed object has the id; otherwise the index is the first one with it |
| FlatStore.Records | src/main/java/articlecli/SerializedArticleDAO.java:58 | the serialized list is the fields of each listed object, in order |
| FlatStore.IndexOf | src/main/java/articlecli/SerializedArticleDAO.java:78 | `List.remove(Object)` finds the first position holding that very object |
| FlatStore.RemoveFirst | src/main/java/articlecli/SerializedArticleDAO.java:78 | it removes exactly that position |
| FlatStore.WithoutId | src/main/java/articlecli/SerializedArticleDAO.java:76-80 | the objects kept are exactly the listed ones with another id |
| FlatStore.WithoutIdCons | src/main/java/articlecli/SerializedArticleDAO.java:76-80 | the head of the list is kept exactly when its id differs |
| FlatStore.WithoutIdAppend | src/main/java/articlecli/SerializedArticleDAO.java:76-80 | the objects kept stay in list order: the filter distributes over concatenation |
| FlatStore.WithoutIdMultiplicity | src/main/java/articlecli/SerializedArticleDAO.java:76-80 | every copy of an object with another id is kept, and no object with the id |
| FlatStore.WithoutIdOfRemoval | src/main/java/articlecli/SerializedArticleDAO.java:77-80 | removing one object with the id does not change what remains once the id is filtered out (the loop invariant) |
| FlatStore.WithoutAbsentId | src/main/java/articlecli/SerializedArticleDAO.java:79-80 | when no object has the id, filtering it out changes nothing (the loop exit) |
| FlatStore.ArticleStore.Open | src/main/java/articlecli/SerializedArticleDAO.java:18-31 | succeeds exactly when the file loads; the list is then distinct new objects holding the file's records |
| FlatStore.ArticleStore.GetArticleList | src/main/java/articlecli/SerializedArticleDAO.java:34-36 | returns the stored objects themselves |
| FlatStore.ArticleStore.GetArticle | src/main/java/articlecli/SerializedArticleDAO.java:39-41 | null exactly when no object has the id; otherwise the first one with it |
| FlatStore.ArticleStore.SaveArticle | src/main/java/articlecli/SerializedArticleDAO.java:44-62 | a taken id gives "Error during serialization.", the list unchanged and the file reduced to a stream header; otherwise the article is appended and the list written |
| FlatStore.ArticleStore.DeleteArticle | src/main/java/articlecli/SerializedArticleDAO.java:65-87 | an absent id gives "Error during serialization." and a header-only file; otherwise every object with the id is removed, the rest keep their order, and the list is written |
| FlatStore.DuplicateSaveLosesList | src/main/java/articlecli/SerializedArticleDAO.java:44-53 | opening a one-article file, saving a duplicate and reopening throws "Error during deserialization." |
| PackagedArticles.IdCheck | src/main/java/articlecli/contracts/Article.java:36-42 | accepts exactly the positive ids, otherwise "Error: Invalid parameter." |
| PackagedArticles.TextCheck | src/main/java/articlecli/contracts/Article.java:48-54 | `isEmpty() \|\| isBlank()` refuses exactly the blank texts (also `setPublisher`, lines 78-84) |
| PackagedArticles.ReleaseYearCheck | src/main/java/articlecli/contracts/Article.java:60-68 | accepts exactly 1 up to the current year |
| PackagedArticles.BasePriceCheck | src/main/java/articlecli/contracts/Article.java:90-93 | accepts exactly the prices that are not negative |
| PackagedArticles.LengthCheck | src/main/java/articlecli/articles/DVD.java:30-34 | accepts exactly the positive lengths |
| PackagedArticles.DvdChecks | src/main/java/articlecli/articles/DVD.java:19-24 | the DVD constructor's setter checks in order: they all pass exactly when the id is positive, title and publisher are not blank, the year lies from 1 to the current year, the price is not negative and the length is positive; the year error is the outcome exactly when id and title pass and the year does not |
| PackagedArticles.PriceOf | src/main/java/articlecli/contracts/Article.java:100-102 | a price has scale 2; a DVD with a cent-scale base price sells at it; a book's price is the base price less its discount |
| PackagedArticles.Article.SetId | src/main/java/articlecli/contracts/Article.java:36-42 | the id changes exactly when the check passes |
| PackagedArticles.Article.SetTitle | src/main/java/articlecli/contracts/Article.java:48-54 | the title changes exactly when the check passes |
| PackagedArticles.Article.SetReleaseYear | src/main/java/articlecli/contracts/Article.java:60-68 | the year changes exactly when the check passes |
| PackagedArticles.Article.SetPublisher | src/main/java/articlecli/contracts/Article.java:78-84 | the publisher changes exactly when the check passes |
| PackagedArticles.Article.SetBasePrice | src/main/java/articlecli/contracts/Article.java:90-96 | an accepted price is stored rescaled to 2 digits |
| PackagedArticles.Article.SetLength | src/main/java/articlecli/articles/DVD.java:30-34 | the length changes exactly when positive |
| PackagedArticles.Article.SetAgeRating | src/main/java/articlecli/articles/DVD.java:40-42 | the rating is replaced and the length kept |
| PackagedArticles.Article.SetAgeRatingByMinAge | src/main/java/articlecli/articles/DVD.java:44-46 | an unknown age throws before anything changes; a known one stores its rating |
| PackagedArticles.Article.GetAge | src/main/java/articlecli/contracts/Article.java:70-72 | years since release, not negative for a past year |
| PackagedArticles.Article.GetDiscount | src/main/java/articlecli/articles/DVD.java:49-63 | a book's is its own; a DVD's is 0.00 whatever the base price's scale |
| PackagedArticles.Article.GetPrice | src/main/java/articlecli/contracts/Article.java:100-102 | the price is `PriceOf` of the fields |
| PackagedArticles.Article.NewDvd | src/main/java/articlecli/articles/DVD.java:19-24 | fails with the first failing setter check; otherwise a fresh object holding the checked values |
| PackagedStore.FirstWithId | src/main/java/articlecli/storage/SerializedArticleDAO.java:41-43 | the first index with the id, or none exactly when no object has it |
| PackagedStore.Records | src/main/java/articlecli/storage/SerializedArticleDAO.java:62 | the serialized list is the fields of each listed object |
| PackagedStore.RemoveAll | src/main/java/articlecli/storage/SerializedArticleDAO.java:85 | `removeAll(singletonList(x))` keeps exactly the objects other than x, and shortens the list when x is listed |
| PackagedStore.RemoveAllOfDistinct | src/main/java/articlecli/storage/SerializedArticleDAO.java:85 | with distinct objects, it removes exactly the one position |
| PackagedStore.RemoveAllAbsent | src/main/java/articlecli/storage/SerializedArticleDAO.java:85 | an unlisted object leaves the list alone |
| PackagedStore.DistinctIdsObjects | src/main/java/articlecli/storage/SerializedArticleDAO.java:53 | distinct ids imply distinct objects |
| PackagedStore.ArticleStore.Open | src/main/java/articlecli/storage/SerializedArticleDAO.java:16-33 | succeeds exactly when the file loads, with distinct new objects holding its records |
| PackagedStore.ArticleStore.GetArticleList | src/main/java/articlecli/storage/SerializedArticleDAO.java:36-38 | returns the stored objects themselves |
| PackagedStore.ArticleStore.GetArticle | src/main/java/articlecli/storage/SerializedArticleDAO.java:41-43 | null exactly when no object has the id; otherwise the first one with it |
| PackagedStore.ArticleStore.SaveArticle | src/main/java/articlecli/storage/SerializedArticleDAO.java:46-68 | a taken id gives "Error: Article already exists.", the list unchanged and the file reduced to a header; otherwise the article is appended and written; distinct ids stay distinct, and so do distinct objects |
| PackagedStore.ArticleStore.DeleteArticle | src/main/java/articlecli/storage/SerializedArticleDAO.java:71-93 | an absent id gives "Error: Article not found." and a header-only file; otherwise every occurrence of the found object goes, which with distinct objects is exactly the slot of the first article with the id |
| PackagedStore.DuplicateSaveLosesList | src/main/java/articlecli/storage/SerializedArticleDAO.java:46-58 | opening a one-article file, saving a duplicate and reopening throws "Error during deserialization." |
| PackagedQueries.CountBooks | src/main/java/articlecli/ArticleManagement.java:51-53 | at most the article count, 0 exactly when there is no book, and 1 for a single article exactly when it is a book |
| PackagedQueries.CountDvds | src/main/java/articlecli/ArticleManagement.java:60-62 | at most the article count, 0 exactly when there is no DVD, and 1 for a single article exactly when it is a DVD |
| PackagedQueries.CountsAppend | src/main/java/articlecli/ArticleManagement.java:51-62 | both counts add over concatenation; with the single-article case this fixes each count as the number of listed books (DVDs) |
| PackagedQueries.CountsPartition | src/main/java/articlecli/ArticleManagement.java:42-62 | books plus DVDs is the article count |
| PackagedQueries.PriceSum | src/main/java/articlecli/ArticleManagement.java:66-67 | `ZERO` for no articles, otherwise the exact total of the prices at scale 2 |
| PackagedQueries.PriceMean | src/main/java/articlecli/ArticleManagement.java:64-71 | an empty list is a division by zero; otherwise the total divided by the count at scale 2, rounded half-up |
| PackagedQueries.MinReleaseYear | src/main/java/articlecli/ArticleManagement.java:75 | a listed year that no listed year undercuts |
| PackagedQueries.IdsFrom | src/main/java/articlecli/ArticleManagement.java:78 | the scan from index j returns ids only of articles from j on of that year, and the id of each of them |
| PackagedQueries.IdsFromSecond | src/main/java/articlecli/ArticleManagement.java:78 | a scan past the end of the first of two joined lists reads only the second |
| PackagedQueries.IdsFromAppend | src/main/java/articlecli/ArticleManagement.java:78 | a scan starting inside the first of two joined lists returns its ids, then those of the whole second list |
| PackagedQueries.IdsReleasedIn | src/main/java/articlecli/ArticleManagement.java:78 | every id returned is of an article of that year, and every such article's id is returned |
| PackagedQueries.IdsReleasedInAppend | src/main/java/articlecli/ArticleManagement.java:78 | the filter keeps list order: it distributes over concatenation |
| PackagedQueries.OldestArticleIds | src/main/java/articlecli/ArticleManagement.java:73-79 | an empty list throws NoSuchFieldError; otherwise a non-empty array holding exactly the ids of the oldest articles, and it is the in-order `IdsReleasedIn` filter at the minimum year |
| PackagedQueries.ArticleManagement.constructor | src/main/java/articlecli/ArticleManagement.java:17-19 | the service keeps its store |
| PackagedQueries.ArticleManagement.GetArticleList | src/main/java/articlecli/ArticleManagement.java:21-23 | forwards to the store |
| PackagedQueries.ArticleManagement.GetArticle | src/main/java/articlecli/ArticleManagement.java:25-27 | forwards to the store |
| PackagedQueries.ArticleManagement.SaveArticle | src/main/java/articlecli/ArticleManagement.java:29-31 | has the store's save effect: on a taken id AlreadyExists, the list unchanged and a header-only file; otherwise the article appended and the list written; distinct ids and distinct objects are kept |
| PackagedQueries.ArticleManagement.DeleteArticle | src/main/java/articlecli/ArticleManagement.java:33-35 | has the store's delete effect: on an absent id NotFound, the list unchanged and a header-only file; otherwise every occurrence of the found object removed (exactly its slot when the listed objects are distinct) and the list written |
| DakralexArticles.IdCheck | src/main/java/org/dakralex/plcarticlemgmt/contracts/Article.java:35-41 | accepts exactly the positive ids, otherwise "The id must be positive." |
| DakralexArticles.TextCheck | src/main/java/org/dakralex/plcarticlemgmt/contracts/Article.java:47-53 | `!(isEmpty() && isBlank())` refuses only the empty string (also `setPublisher`, lines 77-83) |
| DakralexArticles.BlankTitleAccepted | src/main/java/org/dakralex/plcarticlemgmt/contracts/Article.java:47-53 | a title of one space is accepted although it is blank |
| DakralexArticles.ReleaseYearCheck | src/main/java/org/dakralex/plcarticlemgmt/contracts/Article.java:59-67 | accepts exactly 1 up to the current year |
| DakralexArticles.BasePriceCheck | src/main/java/org/dakralex/plcarticlemgmt/contracts/Article.java:89-95 | accepts exactly the prices that are not negative, otherwise "The base price must be positive" |
| DakralexArticles.CountCheck | src/main/java/org/dakralex/plcarticlemgmt/articles/Book.java:36-42 | pages (and a DVD's length, DVD.java 29-35) must be positive |
| DakralexArticles.ConstructorChecks | src/main/java/org/dakralex/plcarticlemgmt/articles/Book.java:14-18 | the constructor's setter checks in order (also the DVD's, DVD.java 18-23): all pass exactly when every check does, and each error is the outcome exactly when every earlier check passes and its own fails |
| DakralexArticles.DvdPriceWidened | src/main/java/org/dakralex/plcarticlemgmt/contracts/Article.java:99-101 | a DVD's base price less its zero discount is the base price written at the larger of its scale and 2 |
| DakralexArticles.PriceOf | src/main/java/org/dakralex/plcarticlemgmt/contracts/Article.java:99-101 | the price keeps the larger of the base price's scale and 2; a DVD's is its base price written at that scale, so equal in value; a book's, for a base price in cents, is the base price times (1 − whole fraction) |
| DakralexArticles.Article.SetId | src/main/java/org/dakralex/plcarticlemgmt/contracts/Article.java:35-41 | the id changes exactly when the check passes |
| DakralexArticles.Article.SetTitle | src/main/java/org/dakralex/plcarticlemgmt/contracts/Article.java:47-53 | the title changes exactly when it is not empty |
| DakralexArticles.Article.SetReleaseYear | src/main/java/org/dakralex/plcarticlemgmt/contracts/Article.java:59-67 | the year changes exactly when the check passes |
| DakralexArticles.Article.SetPublisher | src/main/java/org/dakralex/plcarticlemgmt/contracts/Article.java:77-83 | the publisher changes exactly when it is not empty |
| DakralexArticles.Article.SetBasePrice | src/main/java/org/dakralex/plcarticlemgmt/contracts/Article.java:89-95 | an accepted price is stored exactly as given |
| DakralexArticles.Article.SetPages | src/main/java/org/dakralex/plcarticlemgmt/articles/Book.java:36-42 | the pages change exactly when positive |
| DakralexArticles.Article.SetLength | src/main/java/org/dakralex/plcarticlemgmt/articles/DVD.java:29-35 | the length changes exactly when positive |
| DakralexArticles.Article.SetAgeRating | src/main/java/org/dakralex/plcarticlemgmt/articles/DVD.java:41-43 | the rating is replaced and the length kept |
| DakralexArticles.Article.GetAge | src/main/java/org/dakralex/plcarticlemgmt/contracts/Article.java:69-71 | years since release, not negative for a past year |
| DakralexArticles.Article.GetPrice | src/main/java/org/dakralex/plcarticlemgmt/contracts/Article.java:99-101 | the price is `PriceOf` of the fields |
| DakralexArticles.Article.NewBook | src/main/java/org/dakralex/plcarticlemgmt/articles/Book.java:14-18 | fails with the first failing setter check; otherwise a fresh object holding the arguments unchanged |
| DakralexArticles.Article.NewDvd | src/main/java/org/dakralex/plcarticlemgmt/articles/DVD.java:18-23 | the same for a DVD, the rating stored as given |

## Left out

- The command-line front ends (`ArticleCLI` in every version), argument
  parsing and the factories (`Article.newFromArgs` and its parse helpers,
  `articlecli/factories`, `org/.../factories`). The default revision's parser
  only ever hands the constructors a base price that is not negative and is
  rounded to cents. The model keeps that as the base price being a whole
  number of cents.
- Java serialization itself: the byte format, `readObject` and
  `writeObject`. A file is one of four states, and a written file holds the
  list's field values.
- Write failures, such as a full disk or missing permissions. Every write is
  modelled as succeeding.
- A file holding an object that is not a list: the default and packaged
  constructors let a ClassCastException escape instead of reporting a
  deserialization error. The model reports a deserialization error.
- `toString` in every class: it is output formatting only.
- The text of the flat package's `ArticleCLI.ERR_MSG_INVALID_PARAMETER`:
  `articlecli/ArticleCLI.java` does not define it. Such failures are the
  error kind `InvalidParameter`.
- The id in the store's error messages: the model carries it as an integer.
  The package split formats it with `{0}`, which inserts digit grouping;
  that formatting is left out.
- `null` arguments and the exceptions dereferencing them throws. Dafny values are never null;
  `null` returned from `getArticle` is `None`.
- `Year.now()`: it is the parameter `currentYear`.
- Catalogue.AgeDiscount: the 32-bit arithmetic of `getAge()`
  (`src/main/java/Article.java:162`) and of `5 * getAge()`
  (`src/main/java/Book.java:52`) is not modelled; integers are unbounded.
  The constructor accepts any release year up to the current one, and the
  parser's `Integer.parseUnsignedInt` (`src/main/java/Article.java:81`) turns
  "3000000000" into the year -1294967296. For such a year `5 * getAge()`
  wraps to a negative number that `Math.min` keeps, so Java computes a
  negative percentage and a price far above the base price, where the model
  gives the 30% cap.
- PackagedQueries.CountsPartition: books plus DVDs is the article count only
  because the model's `Part` has exactly the two variants.
  `articlecli.contracts.Article` is a non-sealed abstract class, so other
  subclasses could exist, and the code then counts them in neither filter.
- Helpers with no row of their own: the `ArticleStore.Init` constructors
  (they only set the two fields), the `Article.Blank` constructors (the
  object before its setters run), `TotalCents`, `TotalBasePrice`,
  `ValidArticles`, `IsOldest`, the predicates `DistinctObjects` and
  `DistinctIds`, `FlatArticles.ValidRecord` (what it demands is stated through
  `BookChecksValid` and `DvdChecksValid`), the error-text functions `Message`,
  `AgeRatings.Ordinal`, the `Fields` accessors, Decimal's plumbing `Value`,
  `Pow10`, `Widen`, `Abs`, `Max`, `SubZero`, `ValueOfWidened` and
  `ValueOfSum`, and Decimal's real-arithmetic steps `RealDivCancel`,
  `RealDivMul`, `RealCastMul`, `MulSubDistr`, `MulBelowOne` and `CancelPositive`.
- The unreachable catch of ArithmeticException in the flat
  `setBasePrice`: HALF_UP never throws.
- CatalogueStore.ArticleStore.GetArticleList: `Collections.unmodifiableList`
  is a read-only view of the live list. A Dafny sequence is a copy, so a view
  that later reflects changes is not modelled.
- FlatStore.ArticleStore.GetArticleList and
  PackagedStore.ArticleStore.GetArticleList: callers share the article
  objects, but a caller adding to or removing from the returned `List` is not
  modelled.
- `articlecli.articles.Book`, `articlecli.storage.ArticleDAO` and
  `articlecli.ArticleDAO` are not part of this model. In the packaged
  version a book is represented by the discount its `getDiscount()` returns,
  so there is no packaged Book constructor.
- `org.dakralex.plcarticlemgmt`'s `DVD.setAgeRating(int)` calls a lookup its
  `AgeRating` enum does not declare, so it has no behaviour to model. That
  enum, the org `storage.ArticleDAO` interface and its missing
  `SerializedArticleDAO` and `ArticleManagement` are left out.
- The ArticleDAO interfaces are not a Dafny trait: each store is a class,
  and the interface's contract is stated as the pure functions
  `CatalogueStore.Find`, `Saved` and `Deleted`.
- Deserialized objects never run their constructors. A record read back from
  a file is therefore not re-checked; `Open` builds its objects with
  `FromRecord`.
- PackagedArticles.PriceOf: a book's price is stated for a discount of at
  most two decimals, because the unseen Book class decides the discount's
  scale.
- DakralexArticles.PriceOf: a book's price is stated in full only for a base
  price with exactly two decimals. The org setter stores the price as given,
  and at other scales the discount's `setScale(2)` rounds, so only the scale of
  the price is stated there.
- Build files (`build.gradle.kts`).

## Findings

| source | as written | input that shows it | evidently intended | confidence | as-written member | corrected member |
|---|---|---|---|---|---|---|
| src/main/java/articlecli/Book.java:27 | the age term is `Math.max(5 * age, 30)`, so it is never below 30%, although the comment calls 30% the highest discount | a book released this year earns 30% (33% over 1000 pages) | `Math.min`, a cap of 30%, as in `src/main/java/Book.java:52` | high, not executed | SnapshotPricing.AgePercentage | Catalogue.AgeDiscount |
| src/main/java/articlecli/Book.java:31 | the percentage is divided by 100 at scale 0, so the fraction is a whole number; with the `max` above, a book aged 10 to 29 costs 0.00 and one aged 30 to 49 costs minus its base price | a book released ten years ago at 10.00 has price 0.00; thirty years ago, -10.00 | a two-digit fraction, as `src/main/java/Article.java:194` divides at scale 2, which keeps the price between 0 and the base price | high, not executed | SnapshotPricing.MiddleAgedBookPrice | Catalogue.PriceWithinBasePrice |
| src/main/java/articlecli/DVD.java:57 | the same scale-0 division turns every DVD tier (at most 20%) into 0, so no DVD is ever discounted | a DVD with no age restriction at 10.00 sells for 10.00 instead of 8.00 | the tier as a two-digit fraction, as in the default revision | high, not executed | SnapshotPricing.DvdPrice | Catalogue.DvdPriceExamples |
| src/main/java/articlecli/SerializedArticleDAO.java:45-53 | the output stream is opened, truncating the file, before the duplicate check, so a refused save empties the file | open a file holding article 1, save another article 1, reopen: "Error during deserialization." and the stored list is gone | check first and open the file only to write, as in `src/main/java/SerializedArticleDAO.java:50-61` | high, not executed | FlatStore.DuplicateSaveLosesList | CatalogueStore.DuplicateSaveKeepsFile |
| src/main/java/articlecli/storage/SerializedArticleDAO.java:46-58 | the same truncation before the check in the package split | the same sequence of calls | the same | high, not executed | PackagedStore.DuplicateSaveLosesList | CatalogueStore.DuplicateSaveKeepsFile |
| src/main/java/org/dakralex/plcarticlemgmt/contracts/Article.java:48 | `!(isEmpty() && isBlank())` is `!isEmpty()`, so a title of spaces is accepted | `setTitle(" ")` stores the title | refuse blank titles, `isEmpty() \|\| isBlank()`, as in `src/main/java/articlecli/contracts/Article.java:49` | medium, not executed | DakralexArticles.BlankTitleAccepted | PackagedArticles.TextCheck |
