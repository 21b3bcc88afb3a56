# Cooking-flask recipe backend, modelled in Dafny

This project models the core of a Flask recipe-sharing backend: accounts,
recipes with ingredient and dietary-restriction links, ratings, comments and
favorites. It also models the authorization decorators and the image-upload
checks.

The model:

- **The database** (`Session.Store`) is one mutable map per table, from
  primary key to row, plus the SERIAL counter behind every key a route inserts
  into. Its invariant `Valid()` holds:
  - the rows fit their declared columns (NOT NULL, string lengths, 32-bit
    INTEGER columns, the Numeric(10,2) quantity as hundredths);
  - every foreign key names a live row;
  - usernames, e-mail addresses and dietary-restriction names are unique;
  - at most one rating exists per (user, recipe);
  - every counter is ahead of its table.
- **Route handlers that write** (register, update_user, create/update/delete
  recipe, add_rating, add_comment, add_favorite) are methods on the store.
  - Each one is proved to leave exactly the state that a step function over
    the old tables describes: the reply, the new tables and the new counters.
  - Each one keeps `Valid()`.
- **Commits.** A commit either stores everything the handler staged or, when
  the database would refuse a row or the handler raises, answers 500 and
  leaves the last committed state.
- **Read endpoints** (get_recipes, get_recipe, get_ratings, get_comments,
  get_favorites, login, get_user) are functions over a snapshot of the tables.
- **The decorators** `token_required` and `owner_required` are decision
  functions.
- **Declared `ondelete` rules.** CASCADE and SET NULL are delete functions
  (`Database.DeleteRecipe`, `DeleteUser`, `DeleteCategory`, …). They are
  proved to leave no orphan and to keep the database consistent.
- **Outside calls become parameters:**
  - password hashing: the `Credentials` oracle;
  - the JWT check: the `Jwt` value;
  - the clock: a `Timestamp`;
  - libmagic: the `Sniffer` oracle;
  - the uuid and the outcome of image re-encoding, file writes and S3 uploads.

## Model

| member | source | states |
|---|---|---|
| Json.Get | app/recipes/routes.py:87-90 | `data.get(key)` is the value under the key, and JSON null for an absent key |
| Json.AsInt | app/ratings/routes.py:12 | `isinstance(v, int)` accepts exactly ints and bools; a bool counts as 0 or 1 |
| Json.AsColumnInt | app/models/recipe.py:13-15 | an INTEGER column stores an int within 32 bits as itself and a float rounded half away from zero when that fits; a bool, though `isinstance(True, int)`, is refused, as is anything else |
| Json.AsNullableInt | app/models/recipe.py:11-15 | a nullable INTEGER column stores null as None and anything else as `AsColumnInt` stores it |
| Json.Digit | app/models/interaction.py:17 | the digit character for 0 to 9, whose code is '0' plus the value |
| Json.Digits | app/models/interaction.py:17 | the base-10 digits of a natural number: non-empty, all digits, no leading zero |
| Json.DigitsRoundTrip | app/models/interaction.py:17 | reading the digits of `n` back gives `n` |
| Json.DecimalText | app/models/interaction.py:17 | an integer's text: '-' first exactly for a negative number, then the digits of its magnitude |
| Json.DecimalTextRoundTrip | app/models/interaction.py:17 | an integer's text reads back as that integer, so two integers with the same text are equal |
| Json.DecimalTextExamples | app/models/interaction.py:17 | 5, -12 and 0 are written "5", "-12" and "0" |
| Json.AsText | app/models/interaction.py:17 | a NOT NULL text column stores a string without U+0000 as itself, an int as decimal text that reads back as the int, and a bool as 'true' or 'false'; a string holding U+0000, null, a float, a list and an object are refused, and nothing stored holds U+0000 |
| Json.AsVarchar | app/models/recipe.py:8 | a VARCHAR(n) column takes what a text column takes when it has at most n characters, or when everything past the n-th is a space, and then stores only the first n; anything else is refused; what is stored is a prefix of the text, at most n long, followed in the text only by spaces |
| Json.VarcharCutsSpaces | app/models/ingredient.py:15 | a text of exactly n characters followed by spaces is stored as that text |
| Json.VarcharExamples | app/models/recipe.py:8 | "ab  " into VARCHAR(2) is stored as "ab", "ab c" is refused, "a  " into VARCHAR(5) is kept whole, and -12 (text "-12") is too long for VARCHAR(2) |
| Json.AsNullableText | app/models/recipe.py:12 | a nullable text column stores null as None and anything else as `AsText` stores it |
| Json.SameValueStoresSame | app/recipes/routes.py:125-130 | a value Python finds equal to the loaded INTEGER or text value would be stored as that same value, except a bool, which an INTEGER column refuses |
| Json.ColumnCastExamples | app/models/recipe.py:13-15 | 5 is stored as '5' and true as 'true' in text; 30.5, -2.5 and 3.0 become 31, -3 and 3 in INTEGER; true is refused there |
| Json.AsHundredths | app/models/ingredient.py:14 | a Numeric(10,2) column takes an int exactly and a float to within half a hundredth; a bool or any other value is refused |
| Json.Elements | app/recipes/routes.py:97-107 | a `for` loop visits a list's items and a string's characters, nothing for an empty object, and refuses null, bools and numbers |
| Json.RoundHalfAway | app/models/ingredient.py:14 | rounding to the column scale: the result is within one half of the input, ties away from zero |
| Text.Lower | app/utils/upload.py:14 | ASCII lowering: A to Z become a to z, every other character is kept, so the length is kept |
| Text.LowerIdempotent | app/utils/upload.py:134 | lowering twice is lowering once |
| Text.LowerKeeps | app/utils/upload.py:14 | a non-letter occurs in the lowered text exactly when it occurs in the original |
| Text.LastIndexOf | app/utils/upload.py:14 | the index of the last occurrence, or -1 exactly when there is none |
| Text.AfterLast | app/utils/upload.py:14 | `rsplit(c, 1)[-1]`: the text after the last `c` holds no `c` and rebuilds the original with it; without `c` the whole text |
| Text.LikePercentAll | app/recipes/routes.py:23-24 | the pattern `%` matches every text |
| Text.LikePrefix | app/recipes/routes.py:23-24 | with no special characters, `q%` matches exactly the texts starting with `q` |
| Text.LikeLeadingPercent | app/recipes/routes.py:23-24 | a leading `%` matches exactly when some suffix matches the rest |
| Text.LikeSubstring | app/recipes/routes.py:23-24 | with no special characters, `%q%` is substring search |
| Text.ILikeSubstring | app/recipes/routes.py:22-25 | with no special characters, `ILIKE '%q%'` is case-insensitive substring search |
| RecipeModel.NewRecipe | app/models/recipe.py:16-17 | a new row takes the insert time as both `created_at` and `updated_at`, with the given owner, title and category |
| RecipeModel.Touch | app/models/recipe.py:17 | an UPDATE keeps `created_at`, stores the new columns and sets `updated_at` to now, since `onupdate` fires whenever an UPDATE is sent |
| IngredientModel.QuantityValue | app/recipes/routes.py:64 | `float(ri.quantity)` is the stored hundredths divided by 100 |
| Database.Keep | app/models/interaction.py:7-8 | the rows kept by a delete rule are exactly those that pass it, unchanged, under their own keys |
| Database.InsertAll | app/recipes/routes.py:97-114 | added rows receive consecutive fresh keys, in order, and every other row is unchanged |
| Database.InsertAllSize | app/recipes/routes.py:97-114 | rows added under unused keys make the table grow by exactly their number |
| Database.DeleteRecipe | app/models/interaction.py:8-24 | with the recipe go its ingredient links, dietary links, ratings, comments and favorites (declared CASCADE), and nothing else |
| Database.DeleteRecipeLeavesNoOrphans | app/models/interaction.py:8-24 | after the delete nothing refers to the recipe, every other rating and comment is kept unchanged, and the database stays consistent |
| Database.DeleteRecipeKeepsKeys | app/models/interaction.py:8-24 | the CASCADE delete keeps every foreign key live |
| Database.DeleteRecipeKeepsRows | app/models/interaction.py:4-10 | the CASCADE delete keeps rows well formed and one rating per pair |
| Database.DeleteUser | app/models/recipe.py:7 | with the user go their recipes (and everything cascading from them) and their ratings, comments and favorites |
| Database.OwnedBy | app/models/recipe.py:7 | the recipes a user owns are exactly those whose `user_id` is that user |
| Database.DeleteUserLeavesNoOrphans | app/models/interaction.py:7-23 | after the delete no recipe, rating, comment or favorite names the user, and the database stays consistent |
| Database.DeleteUserKeepsKeys | app/models/interaction.py:7-23 | the user delete keeps every foreign key live |
| Database.DeleteUserKeepsRows | app/models/interaction.py:4-10 | the user delete keeps rows well formed, accounts unique and one rating per pair |
| Database.DeleteCategory | app/models/recipe.py:11 | deleting a category removes it and applies SET NULL to every recipe; every other table is kept |
| Database.UncategorizeAll | app/models/recipe.py:11 | SET NULL keeps every recipe key |
| Database.Uncategorize | app/models/recipe.py:11 | a recipe of the deleted category loses its category; any other keeps it; no other column changes |
| Database.DeleteCategoryKeepsRecipes | app/models/recipe.py:11 | SET NULL keeps every recipe key, leaves no recipe in the deleted category, changes nothing in a recipe but a `category_id` naming it, keeps every other table and category, and keeps the database consistent |
| Database.DeleteIngredient | app/models/ingredient.py:13 | the ingredient row goes, exactly its link rows go with it (CASCADE), every other row and table is kept |
| Database.DeleteIngredientLeavesNoOrphans | app/models/ingredient.py:13 | deleting an ingredient removes its links, keeps every recipe and keeps the database consistent |
| Database.DeleteDietaryRestriction | app/models/dietary_restriction.py:12 | the restriction row goes, exactly its link rows go with it (CASCADE), every other row and table is kept |
| Database.DeleteDietaryRestrictionLeavesNoOrphans | app/models/dietary_restriction.py:12 | deleting a restriction removes its links, keeps every recipe and keeps the database consistent |
| Database.RestrictionsOf | app/models/recipe.py:23 | `recipe.dietary_restrictions` is exactly the restrictions some link row joins to the recipe |
| Database.RestrictionsOfReachable | app/models/recipe.py:23 | under referential integrity every link row of the recipe shows up among its restrictions |
| Session.Store.constructor | app/__init__.py:11 | a session opened over consistent tables with counters ahead of every key holds exactly those tables and counters and is valid |
| Middleware.TokenRequired | app/utils/middleware.py:6-21 | 401 'Invalid or expired token' for a refused token or a view that raises; 401 'User not found' for an identity without a row; otherwise the view's own reply |
| Middleware.TokenRequiredPassesThrough | app/utils/middleware.py:9-19 | the reply is one of the two 401s or the view's reply, and a non-401 view reply is returned exactly when the caller has a row |
| Middleware.KeyFor | app/utils/middleware.py:31 | the id key is the table name without its last character, followed by `_id` |
| Middleware.KeyForExamples | app/utils/middleware.py:31 | 'recipes' gives 'recipe_id', and 'categories' gives 'categorie_id' |
| Middleware.OwnerRequired | app/utils/middleware.py:23-46 | each outcome in both directions: the token error propagates; 400 for a missing or zero id; 404 for no row; 403 for no owner or another owner; otherwise the view |
| Middleware.OwnerRequiredOrder | app/utils/middleware.py:31-42 | 404 is answered whoever asks, and a missing or zero id is 400 even when no row exists |
| AuthRoutes.Lookup | app/auth/routes.py:15-18 | a uniqueness query finds a row exactly when another row holds the string; a non-string value, or a string holding U+0000, cannot be queried |
| AuthRoutes.View | app/auth/routes.py:33-38 | the user view shows id, name and address, and `profile_image or None` |
| AuthRoutes.RegisterStep | app/auth/routes.py:8-39 | 201 exactly when all three fields are present, e-mail and then username are free, and the row can be stored (a `profile_image` int or bool stored as its text, as `AsNullableText` says); 400 messages in the order missing, e-mail, username; failures change nothing |
| AuthRoutes.Register | app/auth/routes.py:8-39 | the route leaves exactly the state `RegisterStep` describes and keeps the store valid |
| AuthRoutes.RegisterKeepsConsistent | app/auth/routes.py:15-29 | a registration keeps usernames and e-mail addresses unique and the database consistent |
| AuthRoutes.InsertKeepsUnique | app/auth/routes.py:15-29 | a row whose name and address nobody holds can be added without a clash |
| AuthRoutes.Login | app/auth/routes.py:41-63 | 400 exactly when e-mail or password is missing; 200 exactly when a token is issued, for a row holding the address whose digest accepts the password; 401 for an unknown address or a rejected password; 500 when the e-mail cannot be compared or the password is not text |
| AuthRoutes.LoginByAccount | app/auth/routes.py:48-51 | under unique accounts, the password check on the address's row decides the login, and the token names that row |
| AuthRoutes.LoginFailuresAlike | app/auth/routes.py:63 | an unknown address that can be queried and a wrong password get the same reply |
| AuthRoutes.LoginNulAddressFails | app/auth/routes.py:48-51 | an address holding U+0000 makes the login query raise (500) |
| AuthRoutes.RegisterThenLogin | app/auth/routes.py:26-51 | a new account can log in with its own e-mail and password, as the new user id |
| AuthRoutes.GetUser | app/auth/routes.py:67-92 | exactly when the row exists, the view of that row (id, username, e-mail, the image or None for an empty one), otherwise 404 |
| AuthRoutes.EditUnique | app/auth/routes.py:108-115 | a name or address edit goes ahead exactly when the key is absent or no other user holds the value, and changes only that field |
| AuthRoutes.ApplyUserUpdateMeaning | app/auth/routes.py:108-119 | the field edits succeed exactly when every given field is acceptable, and then set just the given fields; `profile_image` is stored as `AsNullableText` says |
| AuthRoutes.UpdateUserStep | app/auth/routes.py:94-131 | 403 for another account, then 404, then 400 for `subject`, then the edits; any refusal leaves the store unchanged; success stores the edited row only |
| AuthRoutes.UpdateUser | app/auth/routes.py:94-131 | the route, assigning the fields one by one, leaves exactly the state `UpdateUserStep` describes and keeps the store valid |
| AuthRoutes.UpdateUserKeepsConsistent | app/auth/routes.py:108-121 | an update keeps usernames and e-mail addresses unique and the database consistent |
| AuthRoutes.ReplaceKeepsUnique | app/auth/routes.py:109-115 | a row may be replaced by one whose name and address nobody else holds |
| AuthRoutes.ResubmitOwnAccount | app/auth/routes.py:109-113 | sending back one's own username and e-mail succeeds and changes nothing |
| AuthRoutes.UpdateUserChecksOwnerFirst | app/auth/routes.py:99-102 | for another account the answer does not depend on the row's existence or on the body |
| RecipeRoutes.GetRecipes | app/recipes/routes.py:9-34 | the listing holds exactly the recipes passing every active filter, each with its title, description, image and author name; it fails exactly when such a recipe's author is gone |
| RecipeRoutes.GetRecipesAnswers | app/recipes/routes.py:27-34 | under referential integrity the listing always answers |
| RecipeRoutes.FiltersConjoin | app/recipes/routes.py:15-27 | a recipe passes the combined filters exactly when it passes the category, dietary and search filters each on its own |
| RecipeRoutes.NoFilterListsAll | app/recipes/routes.py:17-27 | with every filter missing, 0 or '', every recipe is listed |
| RecipeRoutes.PlainSearchIsSubstring | app/recipes/routes.py:21-25 | a search without LIKE special characters lists exactly the recipes whose title or description contains it, ignoring case |
| RecipeRoutes.GetRecipe | app/recipes/routes.py:36-75 | 404 exactly for an unknown id; the detail exactly when the author and every linked ingredient exist; the category's id and name when it exists; each link's ingredient id, ingredient name, quantity and unit; the restrictions through the link table; the figures of `get_ratings`, with average 0 when there is none |
| RecipeRoutes.GetRecipeAnswers | app/recipes/routes.py:38-72 | in a consistent database an existing recipe always has its detail |
| RecipeRoutes.UnratedRecipe | app/recipes/routes.py:41-42 | a recipe nobody rated shows 0 ratings and an average of 0 |
| RecipeRoutes.NewRow | app/recipes/routes.py:81-91 | the row is built exactly when the four required keys are present and every value fits its column; the owner is the caller; the given texts (an int or a bool as its text, the title cut to 200 characters when only spaces follow), the category and each optional field (a float into INTEGER rounded) are the values stored, and absent optional fields are None |
| RecipeRoutes.ListField | app/recipes/routes.py:97-107 | `data.get(key, [])`: an absent key is the empty list |
| RecipeRoutes.IngredientLink | app/recipes/routes.py:98-103 | a link is made exactly from an object with the three keys whose id an INTEGER column takes (a float rounded) and names a live ingredient, and whose quantity and unit (an int or bool as its text; cut to 50 characters when only spaces follow) fit their columns; it holds those values, for the new recipe |
| RecipeRoutes.IngredientLinks | app/recipes/routes.py:97-104 | exactly one link per element, in order, when every element gives one; otherwise none |
| RecipeRoutes.DietaryLink | app/recipes/routes.py:108-111 | a link is made exactly from a value an INTEGER column takes (an int within 32 bits, or a float rounded; a bool is refused) naming a live restriction, and links the new recipe to it |
| RecipeRoutes.DietaryLinks | app/recipes/routes.py:107-112 | exactly one link per element, in order, when every element gives one; otherwise none |
| RecipeRoutes.CollectIngredientLinks | app/recipes/routes.py:97-104 | the loop gives the links `IngredientLinks` describes |
| RecipeRoutes.CollectDietaryLinks | app/recipes/routes.py:107-112 | the loop gives the links `DietaryLinks` describes |
| RecipeRoutes.CollectLinks | app/recipes/routes.py:97-112 | both loops give the pair of link lists, or none |
| RecipeRoutes.CreateRecipeStep | app/recipes/routes.py:81-115 | 201 exactly when the row is built and stored and every link can be made; an unstorable row stores nothing; a failing link keeps the recipe without links; success adds the links under fresh ids |
| RecipeRoutes.CreateRecipe | app/recipes/routes.py:77-115 | the route leaves exactly the state `CreateRecipeStep` describes and keeps the store valid |
| RecipeRoutes.CreateFromRow | app/recipes/routes.py:93-115 | the two commits leave exactly the state `CreateRecipeStep` describes for the built row |
| RecipeRoutes.CommitRecipe | app/recipes/routes.py:93-94 | the first commit stores the row under the next recipe id, which was unused |
| RecipeRoutes.CommitLinks | app/recipes/routes.py:104-114 | the second commit stores the links under the next ids and keeps the store valid |
| RecipeRoutes.CreateRecipeKeepsValid | app/recipes/routes.py:93-114 | whatever the answer, the committed state stays consistent with its counters ahead |
| RecipeRoutes.CreatedKeepsValid | app/recipes/routes.py:93-114 | a full creation keeps the database consistent with its counters ahead |
| RecipeRoutes.RecipeInsertKeepsValid | app/recipes/routes.py:93-94 | storing the new recipe under the next id keeps the store valid |
| RecipeRoutes.LinksInsertKeepValid | app/recipes/routes.py:97-114 | storing the links of a live recipe under the next ids keeps the store valid |
| RecipeRoutes.CreatedLinks | app/recipes/routes.py:81-112 | a created recipe has a fresh id and the caller as owner, with one new ingredient link per element and one new restriction link per id, all pointing at it |
| RecipeRoutes.FailedLinksKeepRecipe | app/recipes/routes.py:93-114 | a link that fails answers 500 but leaves the recipe committed without any link |
| RecipeRoutes.WhitelistAssigns | app/recipes/routes.py:125-128 | the whitelist loop succeeds exactly when each named column whose value differs (in Python's `==`) from the loaded one can hold it, and then sets exactly those columns |
| RecipeRoutes.WhitelistUnrolled | app/recipes/routes.py:125-128 | the loop is the eight `setattr` steps in whitelist order, and it writes exactly when one of them changes its column |
| RecipeRoutes.DirtyMeans | app/recipes/routes.py:125-130 | an UPDATE is sent exactly when some whitelisted column named in the payload differs from the loaded value |
| RecipeRoutes.ApplyColumnsKept | app/recipes/routes.py:125-128 | a loop that changes no column leaves the loaded row as it was |
| RecipeRoutes.AssignedStoresText | app/recipes/routes.py:125-128 | each named text column ends up holding the given value as the column stores it (the title through VARCHAR(200)), written or not |
| RecipeRoutes.AssignedStoresInt | app/recipes/routes.py:125-128 | each named INTEGER column ends up holding the given non-bool value as the column stores it, written or not; a bool is accepted only as equal to the loaded value, and nothing changes |
| RecipeRoutes.TruePrepTime | app/recipes/routes.py:125-130 | `{"prep_time": true}` answers 200 with nothing stored over a stored 1, and 500 otherwise |
| RecipeRoutes.ApplyColumnsIgnores | app/recipes/routes.py:125-128 | a key naming no listed column is never read |
| RecipeRoutes.UpdateRecipeStep | app/recipes/routes.py:117-131 | 404 for an unknown id and 403 for another owner, both unchanged; 200 exactly for the owner when the changed columns fit and, if an UPDATE is sent, the row can be stored; with no change nothing is stored; only the recipes table changes |
| RecipeRoutes.UpdateRecipe | app/recipes/routes.py:117-131 | the route's `setattr` loop leaves exactly the state `UpdateRecipeStep` describes and keeps the store valid |
| RecipeRoutes.UpdateRecipeKeepsValid | app/recipes/routes.py:130 | rewriting a recipe with a storable row keeps the store valid |
| RecipeRoutes.UpdateIgnoresOtherKeys | app/recipes/routes.py:125-128 | keys outside the whitelist, such as `user_id` or `recipe_id`, make no difference |
| RecipeRoutes.UpdateSetsNamedColumns | app/recipes/routes.py:125-130 | a successful update rewrites only that recipe: the owner and `created_at` are kept, exactly the changed columns are set, and `updated_at` moves to now exactly when an UPDATE is sent, which it is whenever a stored column changes |
| RecipeRoutes.DeleteRecipeStep | app/recipes/routes.py:133-142 | 404, then 403, both unchanged; otherwise the recipe and what cascades from it are removed |
| RecipeRoutes.DeleteRecipeRoute | app/recipes/routes.py:133-142 | the route leaves exactly the state `DeleteRecipeStep` describes and keeps the store valid |
| RecipeRoutes.DeleteRecipeKeepsValid | app/recipes/routes.py:140-141 | the CASCADE delete keeps the store valid |
| RecipeRoutes.RecipeModelOf | app/utils/middleware.py:36 | the recipes table as `owner_required(Recipe)` sees it |
| RecipeRoutes.RouteChecksMatchOwnerRequired | app/recipes/routes.py:120-122 | for any non-zero id, the route's own 404/403 checks agree with `owner_required(Recipe)`: the view runs exactly when the route gets past them |
| RatingRoutes.RatingValue | app/ratings/routes.py:12-13 | the accepted value is exactly an int in 1..5, or `true` as 1 |
| RatingRoutes.Prior | app/ratings/routes.py:16-19 | `first()` gives a row of the caller for the recipe, or none exists |
| RatingRoutes.AddRatingStep | app/ratings/routes.py:8-32 | 400 and unchanged for a bad value; JSON `true`, which passes `isinstance`, never changes the table: 200 when the caller's stored rating is already 1 (`True == 1`, so no UPDATE), else 500 since the INTEGER column refuses a boolean; an int in 1..5 gives 200 exactly when there is a prior row or both the user and the recipe exist; the prior row is overwritten, or one new row is added; refusals change nothing |
| RatingRoutes.TrueRatingChangesNothing | app/ratings/routes.py:12-22 | JSON `true` leaves the database as it is: 200 exactly when the caller's rating of the recipe is 1, otherwise 500 |
| RatingRoutes.AddRating | app/ratings/routes.py:8-32 | the route leaves exactly the state `AddRatingStep` describes and keeps the store valid |
| RatingRoutes.Upsert | app/ratings/routes.py:16-29 | the caller's row for the recipe holds the new value: the prior row keeps its key and `created_at`, or a row stamped now is added under the next key; every other row is kept |
| RatingRoutes.OnlyRating | app/ratings/routes.py:16-22 | under the one-rating rule, the caller's row is the only one and is what `first()` finds |
| RatingRoutes.AddRatingKeepsConsistent | app/ratings/routes.py:16-31 | `add_rating` keeps the database consistent, in particular one rating per (user, recipe) |
| RatingRoutes.UpsertKeepsRatingRules | app/ratings/routes.py:16-29 | the upsert keeps live keys and one row per pair |
| RatingRoutes.AddRatingKeepsAhead | app/ratings/routes.py:24-29 | a new rating takes a key its counter had not reached |
| RatingRoutes.OverwriteKeepsOneRating | app/ratings/routes.py:21-22 | changing one row's value keeps one rating per pair |
| RatingRoutes.NewRatingKeepsOneRating | app/ratings/routes.py:23-29 | a row for an unrated pair keeps one rating per pair |
| RatingRoutes.RatingsOf | app/ratings/routes.py:36 | the recipe's ratings are exactly the rows with its `recipe_id` |
| RatingRoutes.Summary.Average | app/ratings/routes.py:37-44 | the average is 0 with no rows, and otherwise times the count gives the total |
| RatingRoutes.GetRatings | app/ratings/routes.py:34-49 | the count is the number of the recipe's rows; with none, count and total are 0 and the average is 0 |
| RatingRoutes.SumOverRemove | app/ratings/routes.py:44 | the sum does not depend on the order the rows are taken in |
| RatingRoutes.SumOverBounds | app/ratings/routes.py:44 | values in 1..5 sum to between the count and five times the count |
| RatingRoutes.MeanInRange | app/ratings/routes.py:44-47 | when every row was written by `add_rating`, a rated recipe's mean lies in 1..5 |
| RatingRoutes.SummaryMean | app/ratings/routes.py:44-47 | a count and total whose every rating lies in 1..5 give a mean in 1..5 |
| RatingRoutes.MeanBetween | app/ratings/routes.py:47 | a quotient of a total lying between the count and five times the count lies in 1..5 |
| RatingRoutes.AddRatingKeepsRange | app/ratings/routes.py:12-29 | `add_rating` only stores values in 1..5 |
| RatingRoutes.UpsertSummary | app/ratings/routes.py:16-29 | overwriting keeps the count and replaces the old value in the sum; a new row adds one to the count and its value to the sum |
| RatingRoutes.UpsertKeepsOtherSummaries | app/ratings/routes.py:16-29 | rating one recipe leaves every other recipe's figures unchanged |
| CommentRoutes.AddCommentStep | app/comments/routes.py:8-19 | 200 exactly when content can be stored as text (a string, or an int or bool as its text) and user and recipe exist; then exactly one row (caller, recipe, the stored content, now) is added under the next key; otherwise nothing changes |
| CommentRoutes.AddComment | app/comments/routes.py:8-19 | the route leaves exactly the state `AddCommentStep` describes and keeps the store valid |
| CommentRoutes.GetComments | app/comments/routes.py:21-30 | exactly the recipe's comments, each with its id, author, content, time and author name; fails exactly when such an author is gone |
| CommentRoutes.GetCommentsAnswers | app/comments/routes.py:23-30 | under referential integrity the listing always answers |
| CommentRoutes.AddedCommentIsListed | app/comments/routes.py:12-23 | after a comment is added, the listing shows it with its author's name, and every earlier comment unchanged |
| CommentRoutes.RepeatedCommentsAreKept | app/comments/routes.py:11-18 | the same comment posted twice gives two rows |
| CommentRoutes.NulContentRefused | app/comments/routes.py:12-18 | a comment holding U+0000 cannot be stored: 500, nothing changes |
| FavoriteRoutes.AddFavoriteStep | app/favorites/routes.py:20-29 | 200 exactly when user and recipe exist; then exactly one row (caller, recipe, now) is added under the next key; otherwise nothing changes |
| FavoriteRoutes.AddFavorite | app/favorites/routes.py:20-29 | the route leaves exactly the state `AddFavoriteStep` describes and keeps the store valid |
| FavoriteRoutes.Card | app/favorites/routes.py:13-18 | the card shows the recipe's id, title, description and image |
| FavoriteRoutes.GetFavorites | app/favorites/routes.py:8-18 | exactly the caller's favorites, each as its recipe's card; fails exactly when such a recipe is gone |
| FavoriteRoutes.GetFavoritesAnswers | app/favorites/routes.py:11-18 | under referential integrity the listing always answers |
| FavoriteRoutes.OthersFavoritesHidden | app/favorites/routes.py:11-12 | another user's favorite never changes the caller's listing |
| FavoriteRoutes.AddedFavoriteIsListed | app/favorites/routes.py:20-28 | after `add_favorite`, the caller's listing shows that recipe's card |
| FavoriteRoutes.RepeatedFavoritesAreKept | app/favorites/routes.py:23-28 | favoriting the same recipe twice gives two rows for the pair |
| Upload.AllowedFile | app/utils/upload.py:13-14 | true exactly when there is a '.' and the text after the last one, lowercased, is png, jpg, jpeg or gif |
| Upload.LastExtensionDecides | app/utils/upload.py:13-14 | for any `p` and any `e` without '.', `p.e` is allowed exactly when `e` lowercased is an image extension |
| Upload.DotExtension | app/utils/upload.py:14 | the text after the last '.' via `rsplit` is the suffix after the '.' with none behind it |
| Upload.UpperCaseAllowed | app/utils/upload.py:14 | 'a.JPG' passes |
| Upload.LastExtensionAllowed | app/utils/upload.py:14 | 'x.exe.png' passes |
| Upload.EarlierExtensionIgnored | app/utils/upload.py:14 | 'x.png.exe' fails |
| Upload.NoDotRejected | app/utils/upload.py:14 | a name without a '.' fails |
| Upload.ImageErrors | app/utils/upload.py:17-44 | an absent or unnamed file gives just "No file provided"; a present one never does and gets at most three errors |
| Upload.Head | app/utils/upload.py:36 | `read(2048)` from the start gives the first 2048 bytes, or all of a shorter file |
| Upload.NoErrorsIff | app/utils/upload.py:17-44 | no error exactly when a file is there, it is at most 5 MiB, its extension is allowed and it sniffs as an image |
| Upload.ErrorsReported | app/utils/upload.py:28-42 | each error is reported exactly when its check fails |
| Upload.ErrorsOrdered | app/utils/upload.py:28-42 | errors come in the order size, extension, content, none twice |
| Upload.SizeBoundary | app/utils/upload.py:28-29 | exactly 5 MiB passes the size check, and one byte more fails it |
| Upload.UploadedFile.constructor | app/utils/upload.py:16 | an uploaded file opens at position 0 |
| Upload.UploadedFile.SeekEnd | app/utils/upload.py:24 | `seek(0, SEEK_END)` moves to the end |
| Upload.UploadedFile.Seek | app/utils/upload.py:26 | `seek(n)` moves to `n` |
| Upload.UploadedFile.Tell | app/utils/upload.py:25 | `tell()` gives the position |
| Upload.UploadedFile.Read | app/utils/upload.py:36 | `read(n)` gives up to `n` bytes from the position and moves past them |
| Upload.ValidateImage | app/utils/upload.py:16-44 | no file gives exactly ['No file provided']; otherwise the errors `ImageErrors` lists, with the file back at position 0 |
| Upload.Extension | app/utils/upload.py:82 | the lowercased text after the last '.' exactly when there is one; otherwise indexing `rsplit('.', 1)[1]` raises IndexError |
| Upload.LocalUpload | app/utils/upload.py:112-130 | a URL exactly when the name has a '.' and re-encoding and writing succeed, namely `/uploads/profile-images/` + uuid + '.' + the lowercased extension; any failure is 'Error processing upload' |
| Upload.S3Upload | app/utils/upload.py:79-105 | a URL exactly when the name has a '.' and re-encoding and upload succeed, namely `https://` + bucket + `.s3.amazonaws.com/` + folder + '/' + uuid + '.' + the lowercased extension; a client error is the S3 message, any other failure the processing message |
| Upload.UrlExtension | app/utils/upload.py:79-127 | both URLs end in the original name's lowercased last extension, so an allowed file gives an allowed URL extension |
| Upload.NameReadback | app/utils/upload.py:83 | a name built as prefix + uuid + '.' + extension, with no '.' in the uuid or the extension, gives both back: the extension after the last '.', the uuid between the prefix and it |
| Upload.LocalUrlReadback | app/utils/upload.py:115-127 | the local URL gives back its uuid and the file's lowercased extension |
| Upload.S3UrlReadback | app/utils/upload.py:82-100 | the S3 URL gives back its uuid and the file's lowercased extension after the bucket's host and the folder |
| Upload.GetUploader | app/utils/upload.py:133-136 | S3 exactly when `USE_S3`, lowercased, is 'true'; an unset variable means local |
| Upload.GetUploaderExamples | app/utils/upload.py:134 | 'TRUE' and 'True' pick S3; unset and '1' pick local storage |

## Left out

- Password hashing is the `Credentials` oracle (`hash`, `check`). app/models/user.py is not part of this model. The user row's NOT NULL columns and length bounds are assumed from how the routes use it.
- JWT issue and verification are a `Jwt` value: refused, or an identity. The identity is taken to be an integer user id.
- Image processing and storage are outcomes given as parameters:
  - `optimize_image` (PIL decode, resize, JPEG re-encode);
  - the libmagic sniffer;
  - the boto3 client;
  - the file write and `os.makedirs`.
- Upload.S3Upload: an unset `AWS_S3_BUCKET` (None in the URL) is not modelled; the bucket is a string.
- Upload.ValidateImage: the text of the error messages is not modelled (the "5.0MB" figure and the set-ordered list of extensions); errors are an enumeration.
- RatingRoutes.GetRatings: the average is the exact quotient. `round(…, 1)` and the float result are not modelled.
- RecipeRoutes.GetRecipe: the average is the exact quotient. `round(…, 1)` is not modelled. `float(ri.quantity)` is the exact value of the hundredths.
- RecipeRoutes.GetRecipes: results are keyed by recipe id. The order of `query.all()` is not modelled, and neither are the repeated rows the dietary join gives for a recipe linked twice to the same restriction.
- CommentRoutes.GetComments and FavoriteRoutes.GetFavorites: results are keyed by row id; the order of `query.all()` is not modelled.
- ILIKE lowercases ASCII letters only; other case mappings of the database collation are not modelled.
- Text.Lower: lowers ASCII letters only. Python's `str.lower()` also maps non-ASCII letters, and can change the length (U+0130 becomes two code points); that is not modelled.
- Upload.Extension: the extension is lowered by Text.Lower, so a non-ASCII extension is compared as given rather than as Python lowers it. No allowed extension has a non-ASCII letter.
- `db.session.delete(recipe)`: the model shows the declared `ondelete` rules (CASCADE, SET NULL) as the database applies them, not what happens at run time. The relationships at app/models/recipe.py:19-22 declare no ORM cascade and no `passive_deletes`. By SQLAlchemy's default the session then loads each child row at flush and sets its `recipe_id` to NULL. The `recipe_id` columns of comments, ratings, favorites and recipe ingredients are NOT NULL (app/models/interaction.py:8,16,24; app/models/ingredient.py:12), so that flush would fail and the delete of a recipe with such children would be a 500. That outcome is not modelled.
- Database drivers: the model assumes PostgreSQL through psycopg2 and its assignment casts (`Json.AsText`, `Json.AsColumnInt`, `Json.AsHundredths`). psycopg2 sends an int and a float as numeric literals and a bool as an SQL boolean. A text column stores an int as its decimal text and a bool as 'true' or 'false'. An INTEGER column stores an int within 32 bits and rounds a float half away from zero, and refuses a bool. A NUMERIC column takes ints and floats and refuses a bool. psycopg2 cannot send an object, so one is refused everywhere. psycopg2 refuses a string holding U+0000, so such a string is refused wherever it is stored or queried by the modelled operations. A VARCHAR(n) column cuts an over-long text to n characters when only spaces are cut, and refuses it otherwise (`Json.AsVarchar`, for the recipe title and the ingredient unit). Where SQLAlchemy compares a new attribute value with the loaded one (`update_recipe`, `add_rating`) it uses Python's `==`, so `True == 1` and `3.0 == 3` count as no change and nothing is written.
- Json.AsText: a float is refused, though PostgreSQL would store the text of the numeric literal psycopg2 sends (Python's `repr` of the float); that text is not modelled. A list, which psycopg2 sends as an ARRAY, is refused too; the text of an array is not modelled. This affects RecipeRoutes.NewRow, RecipeRoutes.IngredientLink (unit), CommentRoutes.AddCommentStep, AuthRoutes.RegisterStep and AuthRoutes.UpdateUserStep (`profile_image`) and RecipeRoutes.UpdateRecipeStep (the text columns).
- Json.AsColumnInt: a string is refused, though PostgreSQL parses a numeric string into an INTEGER column (and the rules for that vary between versions); not modelled. This affects RecipeRoutes.NewRow, RecipeRoutes.IngredientLink, RecipeRoutes.DietaryLink (including a string's characters iterated by the `for` loop) and RecipeRoutes.UpdateRecipeStep.
- Json.AsHundredths: a numeric string is refused, though PostgreSQL parses one into NUMERIC; not modelled. This affects RecipeRoutes.IngredientLink.
- Json.AsColumnInt and Json.AsHundredths: a JSON number with a fraction is taken as the exact decimal written, not as the Python float `json.loads` makes of it. The rounding to the nearest double, the `repr` text psycopg2 sends for it, and Python's `==` on doubles are not modelled. So 2.4999999999999999999 into INTEGER is 2 in the model, while the double is 2.5 and PostgreSQL stores 3. And 0.004999999999999999999 as a quantity is 0 in the model, while the double is 0.005 and PostgreSQL stores 0.01. NaN and Infinity, which `json.loads` accepts, are not values of the model. This affects RecipeRoutes.NewRow, RecipeRoutes.IngredientLink, RecipeRoutes.DietaryLink and RecipeRoutes.UpdateRecipeStep.
- Json.SameValueStoresSame: the comparison of a given fraction with the loaded value is on exact decimals, not doubles. This affects RecipeRoutes.UpdateRecipeStep.
- RecipeRoutes.UpdateRecipeStep: the change test is the model's exact comparison, not Python's `==` on the double `json.loads` gives. So 30.000000000000001 for a stored 30 counts as a change in the model, and an UPDATE is sent, while in Python the double is 30.0, equal to 30, and nothing is written. The reply is the same 200; only `updated_at` differs.
- RecipeRoutes.GetRecipes: a search text holding U+0000, which psycopg2 refuses to send (a 500), is not modelled; the search is matched as given.
- SERIAL counters are unbounded: the failure of an insert once a counter passes 2^31 - 1 is not modelled.
- Keys consumed by a failed insert are not modelled: a SERIAL counter moves only when a commit succeeds.
- Only request bodies that are JSON objects are modelled. A missing or non-object body, where `get_json()` gives None or a list, is not modelled.
- Any exception inside a handler is one 500 reply. The exception's own message is not modelled.
- RecipeRoutes.CreateRecipeStep: each link element is checked as the loop reaches it, not at the commit. The outcome is the same: the whole second commit fails and the recipe stays.
- Transactions running at the same time, connection pooling and concurrent duplicate-rating races are not modelled. Each handler runs alone.
- Flask wiring is not modelled: blueprint prefixes, CORS, JWT configuration and logging.
- The trivial list endpoints are not modelled: app/categories/routes.py, app/ingredients/routes.py and app/dietary_restrictions/routes.py.
