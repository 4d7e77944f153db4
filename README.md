# PetFeedingApp low-stock feeding domain, in Dafny

PetFeedingApp tracks pets, the food packages they eat from and when a package runs low. This project models its core and proves properties of the model:

- **Days remaining and the threshold.** The backend and frontend copies of `calculateDaysRemaining` floor-divide a package's weight by the pet's daily consumption, and give 0 when a rate is not positive. `shouldNotify` compares the result with a threshold. Modules `Notify` and `ClientDaysRemaining`.
- **Low-stock alerts.** `getLowStockAlerts` maps the fetched pets to alerts and keeps the non-null ones. Module `Notifications`. The fetched pets are its input.
- **The Food and Pet schemas.** Their required fields, their defaults and the open-state invariant of a food package (`isOpen` exactly when `openedAt` is set). Modules `FoodModel` and `PetModel`.
- **The food REST handlers.** Create with a default purchase link, get, update, delete and the open/close toggle, over a store of documents keyed by id. Module `FoodController`, class `FoodStore`.
- **Registration and login.** These work over a user store keyed by email. Module `AuthController`, class `UserStore`.
- **The client data hooks.** `usePets` and `useFoods` keep a cached list with `loading` and `error` flags. Modules `PetsHook` and `FoodsHook`. Both use the shared list updates in `ClientLists`.
- **The forms.** The food form and the pet form, with the comma-list convention shared by both. Modules `FoodForm`, `PetForm` and `CommaList`.
- **The age selector.** Module `PetAgeSelector`.
- **The food card's "Buy" link and specifications line.** Module `FoodItem`.

The JavaScript built-ins the core relies on are modelled in two modules:

- `JsStrings` covers `trim`, one-character `split`, `join`, `String(n)` and ASCII `toUpperCase`.
- `UriComponent` covers `encodeURIComponent`, with a decoder as its partner.

`Wrappers` (Option and Result) and `Http` (a status and a JSON body) are shared vocabulary.

Handlers that update state in place are classes: the food and user stores, the hook state and the form state. Their methods have `modifies` clauses, and their `ensures` give the whole new state in terms of the old one. The pure parts are functions with lemmas.

## Where the model departs from the code

Time, ids and outside libraries become parameters:

- `new Date()` becomes `now`.
- The id the database assigns becomes `newId`.
- bcrypt's salt, hash and compare become `salt`, `hash` and `compare`.
- The JSON Web Token signer becomes `sign`.
- `Number(...)` of a form field becomes `toNumber`.
- Each awaited API call of the hooks becomes its settled outcome, `ApiOutcome`.

One thing is modelled as intended rather than as written:

- **The missing `shouldNotify`.** frontend/src/api/notifications.js:3 imports `shouldNotify` from frontend/src/utils/calculateDaysRemaining.js, and that file exports only `calculateDaysRemaining` (line 10). So the client module cannot load as written. The model takes `shouldNotify` from backend/src/utils/notify.js:20-22, which is evidently what was meant. The load failure itself is not modelled (see "Left out").

One thing is modelled as written:

- **A missing name in `updateFood`.** When the body of `updateFood` has no `name` and no links, the default link is built from `encodeURIComponent(undefined)`, a search for the word "undefined" (backend/src/controllers/foodController.js:75-81). The model keeps this: `FoodController.UpdateWithoutNameLinksToUndefined`.

## Model

| member | source | states |
|---|---|---|
| Notify.CalculateDaysRemaining | backend/src/utils/notify.js:8-12 | 0 when either rate is not positive; otherwise the result d satisfies d*daily <= weight < (d+1)*daily, so it is the floor of weight over daily consumption |
| Notify.DaysRemainingIsFloor | backend/src/utils/notify.js:10-11 | any k with k*daily <= weight < (k+1)*daily is the result, so the result is exactly the floor |
| Notify.DaysRemainingNonNegative | backend/src/utils/notify.js:9-11 | a non-negative weight never gives a negative number of days |
| Notify.DaysRemainingMonotone | backend/src/utils/notify.js:11 | at fixed rates, more weight never gives fewer days |
| Notify.DaysRemainingExamples | backend/src/utils/notify.js:8-12 | 1000 g at 50 g twice a day is 10 days, 999 g is 9, and a zero or negative rate gives 0 |
| Notify.ShouldNotify | backend/src/utils/notify.js:20-22 | alert when the days left are at most the threshold; its boundary and monotonicity are the two lemmas below |
| Notify.ShouldNotifyBoundary | backend/src/utils/notify.js:20-22 | the comparison is inclusive: d == t alerts, d == t+1 does not |
| Notify.ShouldNotifyMonotone | backend/src/utils/notify.js:21 | an alert at threshold t still alerts for any larger threshold and any fewer days |
| ClientDaysRemaining.CalculateDaysRemaining | frontend/src/utils/calculateDaysRemaining.js:10-16 | 0 when a rate is not positive, otherwise the floor of weight over daily consumption (same bounds as the backend) |
| ClientDaysRemaining.AgreesWithBackend | frontend/src/utils/calculateDaysRemaining.js:10-16 | the client and backend copies give the same number on every input |
| ClientDaysRemaining.PartialDayNotCounted | frontend/src/utils/calculateDaysRemaining.js:8-15 | with non-negative weight the full-day count is non-negative and the leftover is less than one day's food |
| Notifications.LowStockAlerts | frontend/src/api/notifications.js:15-47 | at most one alert per pet, and every alert has daysRemaining <= thresholdDays |
| Notifications.DefaultLowStockAlerts | frontend/src/api/notifications.js:15 | with no argument the threshold is 10 days: at most one alert per pet, and every alert has at most 10 days left |
| Notifications.Populate | backend/src/controllers/petController.js:16 | the pet's own fields pass through; its food is resolved iff the reference is in the collection, and then carries that document's isOpen and weight |
| Notifications.WeightOrZero | frontend/src/api/notifications.js:31 | the food's weight, or 0 when absent; MissingWeightIsZero states what that does to the alert |
| Notifications.AlertMessage | frontend/src/api/notifications.js:40-42 | the alert text for a pet name and a day count; the two lemmas below give its full text for every name and count |
| Notifications.AlertFor | frontend/src/api/notifications.js:19-44 | the map callback: nothing or one alert; AlertForQualifying states when and which |
| Notifications.Qualifies | frontend/src/api/notifications.js:29-38 | the pet has a food, it is open, and its days are within the threshold |
| Notifications.AlertForQualifying | frontend/src/api/notifications.js:19-44 | a pet yields an alert iff it has open food and its days are within the threshold; the alert holds its id, name, days and message |
| Notifications.QualifyingIndices | frontend/src/api/notifications.js:18-46 | the pets that qualify, by position: in increasing order, all qualifying, none missed |
| Notifications.AlertsMatchQualifyingPets | frontend/src/api/notifications.js:18-46 | alerts match the qualifying pets one to one and in order: each qualifying pet yields exactly one alert |
| Notifications.ClosedOrMissingFoodNeverAlerts | frontend/src/api/notifications.js:29 | a pet with no food or a closed package never yields an alert |
| Notifications.AlertIdsFollowPets | frontend/src/api/notifications.js:20-44 | the k-th alert carries the id, name and computed days of the k-th qualifying pet, so the output follows the input order by pet id |
| Notifications.AlertsOfConcat | frontend/src/api/notifications.js:18-46 | the alerts of a concatenation are the alerts of each part, in order |
| Notifications.ThresholdMonotone | frontend/src/api/notifications.js:38 | a pet that alerts at one threshold alerts at every larger one |
| Notifications.AlertMessageSingular | frontend/src/api/notifications.js:40-42 | for every pet name, one day reads "<name> has only 1 day of food left." |
| Notifications.AlertMessagePlural | frontend/src/api/notifications.js:40-42 | for every pet name and every count d other than 1, the message reads "<name> has only <d> days of food left." |
| Notifications.AlertMessageDeterminesDays | frontend/src/api/notifications.js:40-42 | two messages for the same name are equal only for the same day count |
| Notifications.PopulatedPetAlerts | frontend/src/api/notifications.js:29-38 | a pet joined against the food collection alerts iff its food exists, is open and its stored weight lasts at most the threshold (by the backend rule) |
| Notifications.MissingWeightIsZero | frontend/src/api/notifications.js:31 | an open food without a weight counts as 0 grams, so 0 days, which alerts at any non-negative threshold |
| FoodModel.NewFood | backend/src/models/Food.js:5-41 | validation passes iff name and brand are non-empty and weight is present; the document holds the fields, empty lists by default and starts closed with no opening date |
| FoodModel.NewFoodConsistent | backend/src/models/Food.js:27-39 | a freshly created food satisfies the open-state invariant |
| PetModel.NewPet | backend/src/models/Pet.js:3-29 | validation passes iff name, age, both rates and the food reference are present; allergies default to the empty list |
| FoodController.SearchLink | backend/src/controllers/foodController.js:17 | the default link starts with the search prefix and its query decodes back to exactly the name |
| FoodController.TemplateText | backend/src/controllers/foodController.js:17 | a template literal's rendering of a body field: the string, or "undefined" when the field is absent |
| FoodController.LinksToSave | backend/src/controllers/foodController.js:14-17 | the links to store are never empty |
| FoodController.CreatedFood | backend/src/controllers/foodController.js:11-28 | the document createFood builds and validates; CreatedFoodLinks and CreatedFoodValidation state what it holds and when it fails |
| FoodController.CreatedFoodLinks | backend/src/controllers/foodController.js:14-26 | a created food keeps non-empty given links exactly, otherwise gets the search link for its name; it starts closed and consistent |
| FoodController.CreatedFoodValidation | backend/src/controllers/foodController.js:19-28 | creation fails iff name or brand is missing or empty, or weight is missing |
| FoodController.UpdatedData | backend/src/controllers/foodController.js:78-81 | the body, with the default link when it has no non-empty array of links |
| FoodController.ApplyUpdate | backend/src/controllers/foodController.js:83-87 | every field present in the data overwrites the stored one |
| FoodController.UpdatedFood | backend/src/controllers/foodController.js:75-87 | the document updateFood leaves behind; the update lemmas below state its fields |
| FoodController.UpdateOverwritesPresentFields | backend/src/controllers/foodController.js:78-87 | every field the body carries (name, brand, specifications, weight, isOpen, openedAt, and buyLinks when a non-empty array) replaces the stored one, absent ones are kept, the id never changes and links are never empty |
| FoodController.UpdateDropsStoredLinks | backend/src/controllers/foodController.js:78-81 | a body without links replaces stored links with the default, even if the document had links |
| FoodController.UpdateWithoutNameLinksToUndefined | backend/src/controllers/foodController.js:75-81 | with neither name nor links in the body, the stored link becomes the search for "undefined" |
| FoodController.UpdateKeepsOpenState | backend/src/controllers/foodController.js:78-87 | an update touching neither isOpen nor openedAt keeps the open-state invariant |
| FoodController.UpdateCanBreakOpenState | backend/src/controllers/foodController.js:78-87 | an update setting only isOpen on a closed package leaves it open without a date |
| FoodController.Toggled | backend/src/controllers/foodController.js:135-144 | the flag flips, openedAt is now on opening and cleared on closing, the invariant holds afterwards and no other field changes |
| FoodController.ToggleTwiceFromClosed | backend/src/controllers/foodController.js:135-146 | opening then closing leaves the package closed with no date and all else unchanged; a consistent package comes back unchanged |
| FoodController.ToggleTwiceFromOpen | backend/src/controllers/foodController.js:135-146 | closing then reopening keeps everything but the opening date, which becomes the reopening time |
| FoodController.FoodStore.constructor | backend/src/controllers/foodController.js:3 | the food collection starts empty |
| FoodController.FoodStore.CreateFood | backend/src/controllers/foodController.js:9-34 | 201 with the new document stored under the new id; a validation failure or a taken id gives 500 and stores nothing |
| FoodController.FoodStore.GetFoodById | backend/src/controllers/foodController.js:54-65 | 200 with the document, or 404 "Food not found" |
| FoodController.FoodStore.UpdateFood | backend/src/controllers/foodController.js:73-98 | 404 and no change for an unknown id, otherwise that document alone is replaced by the updated one and returned |
| FoodController.FoodStore.DeleteFood | backend/src/controllers/foodController.js:104-115 | 404 and no change for an unknown id, otherwise that document alone is removed and the reply is "Food deleted" |
| FoodController.FoodStore.ToggleOpen | backend/src/controllers/foodController.js:125-152 | 404 and no change for an unknown id, otherwise that document alone is replaced by its toggled version and returned |
| AuthController.TokenClaims | backend/src/controllers/authController.js:30-34 | a token's claims name the user and expire one hour after issue |
| AuthController.LoginReply | backend/src/controllers/authController.js:54-84 | the reply login gives against a store; LoginSucceedsIff and LoginFailuresIndistinguishable state it |
| AuthController.LoginFailuresIndistinguishable | backend/src/controllers/authController.js:57-65 | an unknown email and a wrong password give the identical 400 "Invalid credentials" |
| AuthController.LoginSucceedsIff | backend/src/controllers/authController.js:57-79 | login gives 200 iff the email is known and the password matches; then the token names that user for one hour and the body holds id and email; otherwise 400 "Invalid credentials"; in a store keyed by email the user in a success has the login email |
| AuthController.MeReply | backend/src/controllers/authController.js:90-98 | 200 with exactly the user's id and email, under `user` |
| AuthController.MeHidesPassword | backend/src/controllers/authController.js:90-98 | users differing only in password hash get the same reply |
| AuthController.UserStore.constructor | backend/src/controllers/authController.js:3 | the user collection starts empty, and so keyed by email |
| AuthController.UserStore.Register | backend/src/controllers/authController.js:11-48 | a taken email gives 400 and no change; otherwise exactly one user is added with the hashed password, and 201 carries a token over the new id and {id, email} |
| AuthController.UserStore.Login | backend/src/controllers/authController.js:54-84 | in a store keyed by email: never changes the store, the reply is the one LoginSucceedsIff describes, and a success is always as the user with the email given |
| AuthController.RegisterThenLogin | backend/src/controllers/authController.js:22-79 | after registering a fresh email, logging in with the same password succeeds as the new user |
| AuthController.RegisterTwice | backend/src/controllers/authController.js:16-27 | a second registration of an email conflicts and the first user's hash stays |
| ClientLists.ReplaceById | frontend/src/hooks/usePets.js:66-68 | same length; elements with the id become the new value, the others stay where they are |
| ClientLists.RemoveById | frontend/src/hooks/usePets.js:84 | nothing with the id is left, everything else is kept, nothing new appears, and the length drops by the number of matches |
| ClientLists.RemoveOfConcat | frontend/src/hooks/usePets.js:84 | removal works piecewise over a concatenation, so the order of the rest is kept |
| ClientLists.RemoveAbsent | frontend/src/hooks/usePets.js:84 | a list without the id is unchanged |
| ClientLists.RemoveIdempotent | frontend/src/hooks/usePets.js:84 | deleting twice is deleting once |
| ClientLists.ReplaceAbsent | frontend/src/hooks/usePets.js:66-68 | an update for an id not in the list changes nothing |
| ClientLists.RemoveAfterReplace | frontend/src/hooks/usePets.js:61-92 | updating then deleting an id is the same as deleting it |
| ClientLists.RemoveAppended | frontend/src/hooks/usePets.js:50-84 | deleting the id of a just-appended fresh element restores the list |
| PetsHook.PetsState.constructor | frontend/src/hooks/usePets.js:17-19 | starts with no pets, not loading, no error |
| PetsHook.PetsState.FetchPets | frontend/src/hooks/usePets.js:22-37 | an array result replaces the list, another value empties it, a failure records the error and empties it; loading ends false |
| PetsHook.PetsState.CreatePet | frontend/src/hooks/usePets.js:44-59 | the new pet is appended; a failure keeps the list, records and rethrows the error; loading ends false |
| PetsHook.PetsState.UpdatePet | frontend/src/hooks/usePets.js:61-77 | on success the list is ReplaceById of the old list, else unchanged with the error recorded and rethrown |
| PetsHook.PetsState.DeletePet | frontend/src/hooks/usePets.js:79-92 | on success the list is RemoveById of the old list, else unchanged with the error recorded and rethrown |
| PetsHook.CreateThenDelete | frontend/src/hooks/usePets.js:44-92 | a fetch, a create of a fresh pet and its delete leave the fetched list |
| FoodsHook.FoodsState.constructor | frontend/src/hooks/useFoods.js:17-19 | starts with no foods, loading, no error |
| FoodsHook.FoodsState.FetchFoods | frontend/src/hooks/useFoods.js:26-40 | the result is stored as it came, a failure records the error and empties the list; loading ends false |
| FoodsHook.FoodsState.CreateFood | frontend/src/hooks/useFoods.js:42-57 | the new food is appended; a failure keeps the list, records and rethrows the error |
| FoodsHook.FoodsState.UpdateFood | frontend/src/hooks/useFoods.js:59-75 | on success the list is ReplaceById of the old list, else unchanged with the error recorded and rethrown |
| FoodsHook.FoodsState.DeleteFood | frontend/src/hooks/useFoods.js:77-89 | on success the list is RemoveById of the old list, else unchanged with the error recorded and rethrown |
| FoodsHook.EditsKeepOpenState | frontend/src/hooks/useFoods.js:65-82 | updating with a consistent food and deleting keep every cached food consistent |
| JsStrings.Trim | frontend/src/components/Foods/FoodForm.jsx:51 | no whitespace at either end, made only of the input's characters, never longer than the input, empty iff the input is all whitespace |
| JsStrings.TrimIsSlice | frontend/src/components/Foods/FoodForm.jsx:51 | the trim is a slice s[i..j] of the input with nothing but whitespace outside it: only the leading and trailing whitespace is cut off |
| JsStrings.Split | frontend/src/components/Foods/FoodForm.jsx:50 | at least one piece and no piece holds the separator |
| JsStrings.Join | frontend/src/components/Foods/FoodForm.jsx:27-41 | `parts.join(sep)`; its contract is given by JoinSplit and SplitJoin below, which make it the inverse of Split |
| JsStrings.JoinSplit | frontend/src/components/Foods/FoodForm.jsx:50 | joining the pieces with the separator gives the string back |
| JsStrings.SplitJoin | frontend/src/components/Foods/FoodForm.jsx:50 | splitting separator-free pieces joined with the separator gives the pieces back |
| JsStrings.SplitAtSeparator | frontend/src/components/Foods/FoodForm.jsx:50 | splitting a + sep + b gives the pieces of a followed by the pieces of b |
| JsStrings.NatToString | frontend/src/api/notifications.js:40 | at least one decimal digit, no leading zero |
| JsStrings.ParseNatToString | frontend/src/api/notifications.js:40 | reading the decimal rendering back gives the number |
| JsStrings.IntToString | frontend/src/api/notifications.js:40 | `String(n)`: a minus sign exactly for negative numbers (SignVisible), and injective (IntToStringInjective) |
| JsStrings.SignVisible | frontend/src/api/notifications.js:40 | the rendering starts with '-' exactly for negative numbers |
| JsStrings.IntToStringInjective | frontend/src/api/notifications.js:40 | different numbers render differently |
| JsStrings.ToUpperAscii | frontend/src/components/Pets/PetAgeSelector.jsx:42 | a character changes exactly when it is a lower-case ASCII letter, which becomes its upper-case partner; no lower-case letter is left, and the result is an upper-case letter iff the input is a letter |
| JsStrings.ToUpperAsciiIdempotent | frontend/src/components/Pets/PetAgeSelector.jsx:42 | upper-casing twice is upper-casing once |
| JsStrings.ToUpperAsciiCaseInsensitive | frontend/src/components/Pets/PetAgeSelector.jsx:42 | two characters upper-case alike only when equal or case partners |
| UriComponent.EncodeURIComponent | backend/src/controllers/foodController.js:17 | the output uses only unreserved characters, "%" and upper-case hex; an all-unreserved input is unchanged |
| UriComponent.DecodeEncode | backend/src/controllers/foodController.js:17 | percent-decoding the encoding of any string gives that string |
| UriComponent.EncodeInjective | backend/src/controllers/foodController.js:17 | different names give different encodings |
| CommaList.TrimAndDropEmpty | frontend/src/components/Foods/FoodForm.jsx:51-56 | no more items than pieces, each non-empty and trimmed |
| CommaList.TrimAndDropEmptyCommaFree | frontend/src/components/Foods/FoodForm.jsx:51-56 | pieces free of commas give only clean (non-empty, trimmed, comma-free) items |
| CommaList.TrimAndDropEmptyMembers | frontend/src/components/Foods/FoodForm.jsx:51-56 | the items are exactly the non-empty trims of the pieces |
| CommaList.TrimAndDropEmptyOfConcat | frontend/src/components/Foods/FoodForm.jsx:51-56 | the items of a + b are the items of a followed by those of b, so the pieces' order is kept |
| CommaList.ParseCommaList | frontend/src/components/Foods/FoodForm.jsx:49-56 | only non-empty, trimmed, comma-free items come out |
| CommaList.ParseCommaListMembers | frontend/src/components/Foods/FoodForm.jsx:49-56 | the items are exactly the non-empty trims of the comma-separated pieces of the text |
| CommaList.ParseAtComma | frontend/src/components/Foods/FoodForm.jsx:49-56 | text with a comma between a and b reads as the items of a followed by the items of b |
| CommaList.ParseWithoutComma | frontend/src/components/Foods/FoodForm.jsx:49-56 | text without a comma reads as its trim, or as nothing when that is empty |
| CommaList.JoinCommaList | frontend/src/components/Foods/FoodForm.jsx:27-41 | `items.join(', ')`; ParseJoinedList below proves that the parse reads it back |
| CommaList.ParseJoinedList | frontend/src/components/Foods/FoodForm.jsx:26-56 | parsing xs.join(', ') gives xs for any list of clean items |
| CommaList.ParseIsStable | frontend/src/components/Foods/FoodForm.jsx:49-56 | a parsed list written back and parsed again is unchanged |
| FoodForm.SubmissionValidation | frontend/src/components/Foods/FoodForm.jsx:45-72 | submits iff name, brand and weight are filled; then name and brand pass unchanged, both lists hold only clean items, and the weight is the stored number or Number of the typed text |
| FoodForm.FromFood | frontend/src/pages/FoodEditPage.jsx:19-21 | the stored food handed to the form as `initialData`; ResubmitUnchanged and RenameStoredFood below state what the form submits from it |
| FoodForm.IsFilled | frontend/src/components/Foods/FoodForm.jsx:59 | the truthiness `!weight` tests: the number 0 and the empty text are falsy; SubmissionValidation states its role |
| FoodForm.NumberOf | frontend/src/components/Foods/FoodForm.jsx:69 | `Number(weight)`: a stored number is kept, typed text goes through the parser; SubmissionValidation and RenameStoredFood state its role |
| FoodForm.SubmissionFor | frontend/src/components/Foods/FoodForm.jsx:45-72 | what handleSubmit submits for given field values; SubmissionValidation states it |
| FoodForm.FoodFormState.constructor | frontend/src/components/Foods/FoodForm.jsx:23-43 | the mounted state: every field from the initial data, missing ones empty, no error |
| FoodForm.FoodFormState.Reset | frontend/src/components/Foods/FoodForm.jsx:36-43 | every field is reset from the new initial data, missing or zero ones to empty, and the error is cleared |
| FoodForm.FoodFormState.EditName | frontend/src/components/Foods/FoodForm.jsx:97 | the typed text becomes the name; no other field changes |
| FoodForm.FoodFormState.EditBrand | frontend/src/components/Foods/FoodForm.jsx:115 | the typed text becomes the brand; no other field changes |
| FoodForm.FoodFormState.EditSpecifications | frontend/src/components/Foods/FoodForm.jsx:133 | the typed text becomes the specifications text; no other field changes |
| FoodForm.FoodFormState.EditWeight | frontend/src/components/Foods/FoodForm.jsx:150 | the input's text becomes the weight; no other field changes |
| FoodForm.FoodFormState.EditBuyLinks | frontend/src/components/Foods/FoodForm.jsx:168 | the typed text becomes the links text; no other field changes |
| FoodForm.FoodFormState.HandleSubmit | frontend/src/components/Foods/FoodForm.jsx:45-72 | the submission for the current fields; without one, the error "Please fill in name, brand, and weight" |
| FoodForm.ResubmitUnchanged | frontend/src/components/Foods/FoodForm.jsx:23-71 | a stored food opened and saved without edits submits its own fields and lists |
| FoodForm.RenameStoredFood | frontend/src/components/Foods/FoodForm.jsx:23-71 | renaming a stored food keeps its weight the stored number, so it is submitted with the new name, its brand and exactly its stored weight |
| FoodForm.ResubmitZeroWeight | frontend/src/components/Foods/FoodForm.jsx:40-62 | a stored weight of 0 resets to empty text, so the unchanged form is refused |
| PetForm.InitialFood | frontend/src/components/Pets/PetForm.jsx:26 | the first offered food's id, or '' when none is offered |
| PetForm.PetSubmissionValidation | frontend/src/components/Pets/PetForm.jsx:30-51 | submits iff name, age, both rates and food are filled; name, food and image pass unchanged and the allergies hold only clean items |
| PetForm.PetSubmissionFor | frontend/src/components/Pets/PetForm.jsx:30-51 | what handleSubmit submits for given field values; PetSubmissionValidation states it |
| PetForm.PetFormState.constructor | frontend/src/components/Pets/PetForm.jsx:21-28 | every field empty except food, which is the initial food |
| PetForm.PetFormState.EditDetails | frontend/src/components/Pets/PetForm.jsx:63-106 | typed text replaces each detail field |
| PetForm.PetFormState.SelectFood | frontend/src/components/Pets/PetForm.jsx:116 | the selected id becomes the food |
| PetForm.PetFormState.HandleSubmit | frontend/src/components/Pets/PetForm.jsx:30-51 | the submission for the current fields; without one, the error "Please fill in all required fields" |
| PetForm.SubmitWithDefaultFood | frontend/src/components/Pets/PetForm.jsx:26-50 | filled details and an untouched select submit the first offered food |
| PetForm.SubmitWithoutFoods | frontend/src/components/Pets/PetForm.jsx:26-40 | with no food offered and none selected the form is refused |
| PetAgeSelector.Range | frontend/src/components/Pets/PetAgeSelector.jsx:30-34 | n consecutive integers from the first |
| PetAgeSelector.AgeOptions | frontend/src/components/Pets/PetAgeSelector.jsx:28-38 | every option list counts up by one |
| PetAgeSelector.AgeOptionBounds | frontend/src/components/Pets/PetAgeSelector.jsx:29-37 | young is 0..12 (13 options), adult 1..7 (7), old 7..30 (24), anything else none |
| PetAgeSelector.AgeOptionsIncreasing | frontend/src/components/Pets/PetAgeSelector.jsx:28-38 | the options are strictly increasing, so none repeats |
| PetAgeSelector.Capitalize | frontend/src/components/Pets/PetAgeSelector.jsx:41-42 | same length; only the first character is upper-cased; '' stays '' |
| PetAgeSelector.CapitalizeIdempotent | frontend/src/components/Pets/PetAgeSelector.jsx:41-42 | capitalizing twice is capitalizing once |
| PetAgeSelector.ImagePath | frontend/src/components/Pets/PetAgeSelector.jsx:52-54 | a ".png" file in "/assets/images/" whose name is the capitalized animal type followed by the capitalized category |
| PetAgeSelector.CategoryImages | frontend/src/components/Pets/PetAgeSelector.jsx:23-54 | nothing for an empty animal type, otherwise one image per category in order, the i-th being "/assets/images/" + Capitalize(animal) + Capitalize(category i) + ".png" |
| PetAgeSelector.CategoryImagesDistinct | frontend/src/components/Pets/PetAgeSelector.jsx:51-54 | the three category image paths are different files |
| PetAgeSelector.OnCategoryClick | frontend/src/components/Pets/PetAgeSelector.jsx:58-61 | the clicked category is selected and the value becomes "" (the placeholder's value), which matches no option |
| FoodItem.BuyUrlIgnoresLaterLinks | frontend/src/components/Foods/FoodItem.jsx:16-18 | with links, the first link is used and later ones never matter |
| FoodItem.BuyUrl | frontend/src/components/Foods/FoodItem.jsx:16-19 | the first link of a non-empty array of links, otherwise the search link for the name; the lemmas beside it state its properties |
| FoodItem.FallbackMatchesServerDefault | frontend/src/components/Foods/FoodItem.jsx:16-19 | without links, the card shows the server's default link for that name, whose query decodes to the name |
| FoodItem.CreatedFoodBuyUrl | frontend/src/components/Foods/FoodItem.jsx:16-19 | for a food the server created, the card's link is the one the request body itself gives |
| FoodItem.SpecsLine | frontend/src/components/Foods/FoodItem.jsx:28-32 | the line is shown iff the specifications are a non-empty array |
| FoodItem.SpecsLineReadsBack | frontend/src/components/Foods/FoodItem.jsx:28-32 | a shown line of clean items parses back to the same list |

## Left out

- HTTP, persistence and React: `fetch`, `localStorage`, mongoose calls, `res.status().json()` and rendering. Replies are `Reply` values, stores are maps, and the hook and form state are class fields.
- The exception paths ending in 500 "Server error" from database or library failures. Only createFood's validation failure and duplicate id are modelled.
- getFoods and the petController CRUD handlers. They have no logic beyond the database call.
- The shape check on `response.data` in the pets API wrapper. The hook receives its result as a `Payload`.
- FoodsHook.FoodsState.FetchFoods: a non-array fetch result, which the hook would store as-is, cannot be expressed. The result is typed as a list.
- The as-written load failure of frontend/src/api/notifications.js: its import of `shouldNotify` finds no such export, so as written the module does not load and no alert is ever produced. Only the intended behaviour, with the backend rule, is modelled.
- Interval polling and the two different default thresholds of the notification context and hook. The threshold is a parameter, with the default 10 of `getLowStockAlerts` as `Notifications.DefaultThresholdDays`.
- Concurrency: overlapping server requests and overlapping async calls of the hooks. Each handler and each hook operation is modelled as running alone from start to finish. In the source, toggleOpen's load-then-save and register's lookup-then-save are not atomic: two concurrent toggles of one food can lose a flip, so ToggleTwiceFromClosed and ToggleTwiceFromOpen hold only for toggles that run one after the other; two concurrent registrations of one email can both pass the lookup, which a store keyed by email cannot represent.
- Floating point and `NaN`. Weights, grams and ages are integers, and `Number(...)` is an abstract parser to integers.
- Unicode case mapping in `toUpperCase`. Only ASCII letters are mapped.
- UTF-16: strings are sequences of Unicode scalar values, so the lone surrogates `encodeURIComponent` rejects do not arise.
- The `createdAt`/`updatedAt` timestamps of both schemas, and mongoose's casting of values to the schema types. In particular, an id that is not a valid ObjectId makes `findById`, `findByIdAndUpdate` and `findByIdAndDelete` throw, and the source answers 500 "Server error"; in the model (GetFoodById, UpdateFood, DeleteFood, ToggleOpen) every id not in the store gets 404 "Food not found".
- `findByIdAndUpdate` runs no validators by default. FoodController.UpdatedFood therefore applies the body unchecked, and so can break the open-state invariant, as `UpdateCanBreakOpenState` shows. The later `food.save()` in toggleOpen does run the validators, so a document an update left invalid (for example with `name: ""`) fails to toggle with 500 in the source; FoodController.FoodStore.ToggleOpen always toggles.
- FoodForm.FoodFormState.constructor requires initial specifications, because the first render calls `join` on `initialData.specifications` without a fallback.
- The token's signature, its secret and its expiry check. `sign` is an abstract function of the claims.
- The route and middleware wiring. In particular, `me` receives the authenticated user directly.
