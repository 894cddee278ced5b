# Observation analytics of the citizen-science front-end, in Dafny

This project models the derived-state logic of the React front-end of a
citizen-science data-collection application and proves properties of it.
The logic sits in four components:

- **The observation explorer** (`Map.js`, module `MapView`). It holds a
  single-valued category filter that starts at `all` and that five filter
  buttons set. From it come the filtered list, the per-category badge
  counts, the five-item "Recent Activity" feed, the marker icon of each
  record and the feed item's colour, emoji and label.
- **The guided activity page** (`CurriculumActivity.js`, module
  `CurriculumActivity`). It looks up a static activity table by the id in
  the URL. It keeps a per-visit map from protocol step index to a checked
  flag, flipped by `toggleStep`, and shows a rounded completion
  percentage.
- **The citizen dashboard** (`CitizenDashboard.js`, module
  `CitizenDashboard`). It shows observation totals by category, a level
  progress bar driven by `current_xp % 500`, the XP still needed for the
  next level, and the streak.
- **The educator dashboard** (`EducatorDashboard.js`, module
  `EducatorDashboard`). It exports the observation dataset as CSV: the
  header comes from the first record's keys, each row holds the
  JSON-encoded field values, and nulls become `""`. It also shows each
  activity card's start control.

Two support modules hold shared code. `Wrappers` has `Option` and
`Result`. `Observations` has the observation record, the four categories,
the counting functions and the counting loop. That loop is the same in
the map explorer and the citizen dashboard, so it is written once as
`Tally`.

State that the source keeps in React `useState` and replaces through its
setters is modelled as a class:

- `MapView.Explorer` holds the fetched list and the active filter.
- `CurriculumActivity.Checklist` holds the step map.
- `CitizenDashboard.Dashboard` holds the stats and the profile.

A fetch completing is a method that replaces the field. Derived values
(`useMemo`, and expressions in the render) are functions. The counting
`forEach` loops are methods with loop invariants.

Some behaviour of the code is easy to misread, and the model keeps it as
written:

- The "XP to next level" figure lies in [1, 500]. A multiple of 500 shows
  500, never 0.
- The displayed level is the server's `current_level`, shown verbatim. No
  level is recomputed from XP.
- `toggleStep` does not check its index. Any index gets an entry. Only the
  checkboxes' protocol indices keep the percentage within [0, 100]
  (`Checklist.Valid`).
- On the map, a record whose type is the string `"all"` also bumps the
  `all` badge count (`MapView.AllCountQuirk`). The buckets still count
  only known types.

## Model

| member | source | states |
|---|---|---|
| `Observations.CategoryOf` | frontend/src/components/Map/Map.js:90 | a type string reads as a category exactly when it is that category's key |
| `Observations.Tally` | frontend/src/components/Map/Map.js:91-93 | the counting loop keeps the dictionary's keys; each key ends at its start value plus the number of records of that type; records of other types touch nothing |
| `Observations.BucketsConserve` | frontend/src/components/Dashboard/CitizenDashboard.js:26-28 | the four buckets add up to the number of known-type records; that is at most the list length, and equal to it exactly when every type is known |
| `MapView.BadgeFiltersAreExactlyTheLegalValues` | frontend/src/components/Map/Map.js:109-113 | the five buttons install exactly the values `all` and the four category keys, each through a different button |
| `MapView.Explorer.constructor` | frontend/src/components/Map/Map.js:64-65 | the list starts empty and the filter starts at `all` |
| `MapView.Explorer.Loaded` | frontend/src/components/Map/Map.js:74 | a completed fetch replaces the list and leaves the filter alone |
| `MapView.Explorer.Click` | frontend/src/components/Map/Map.js:109-113 | a click installs the button's value; the filter stays one of the five legal values |
| `MapView.Explorer.FilteredObs` | frontend/src/components/Map/Map.js:84-87 | the shown list is a subsequence of the fetched list, and is the list itself under `all` |
| `MapView.Explorer.Stats` | frontend/src/components/Map/Map.js:89-95 | `all` is the length plus the records typed `"all"`; each category bucket is its record count; the buckets sum to at most the length, with equality exactly when every type is known |
| `MapView.AllCountQuirk` | frontend/src/components/Map/Map.js:90-92 | the `all` count equals the length exactly when no record has type `"all"` |
| `MapView.Matching` | frontend/src/components/Map/Map.js:86 | the selection has as many records as the input has of that type, and every selected record has that type |
| `MapView.Filtered` | frontend/src/components/Map/Map.js:84-87 | under a category value, the list holds only and as many records as the input has of that category |
| `MapView.MatchingIsSubsequence` | frontend/src/components/Map/Map.js:86 | the selection keeps input order: it is a subsequence of the input |
| `MapView.MatchingMembers` | frontend/src/components/Map/Map.js:86 | a record is selected exactly when it is in the input with the filter's type |
| `MapView.FilteredIsOrderedSelection` | frontend/src/components/Map/Map.js:84-87 | `all` gives the input unchanged; any value gives a subsequence of the input; a category value gives exactly that category's records, all of them |
| `MapView.MatchingIdempotent` | frontend/src/components/Map/Map.js:86 | selecting twice by the same type equals selecting once |
| `MapView.FilteredIdempotent` | frontend/src/components/Map/Map.js:84-87 | filtering twice by the same value changes nothing |
| `MapView.RecentFeed` | frontend/src/components/Map/Map.js:120 | the feed is the first min(5, n) filtered records in order, and is empty exactly when the filtered list is |
| `MapView.FeedIsOrderedSelection` | frontend/src/components/Map/Map.js:120 | feed records come from the input in input order; under a category filter they all have that category |
| `MapView.IconFor` | frontend/src/components/Map/Map.js:147 | a known category gets its own marker; a type gets the grey default exactly when it is not a known category |
| `MapView.IconsDistinguishCategories` | frontend/src/components/Map/Map.js:25-31 | two different known categories never share a marker |
| `MapView.FeedColour` | frontend/src/components/Map/Map.js:122 | a type gets the air red exactly when it is not `water_quality`, `wildlife` or `plant`, so unknown types get it too |
| `MapView.FeedEmojiFor` | frontend/src/components/Map/Map.js:123 | a type gets the dash emoji exactly when it is not one of the three other categories |
| `MapView.FeedMatchesBadges` | frontend/src/components/Map/Map.js:110-123 | a known category's feed colour is its filter button's colour; colour and emoji fall back together |
| `MapView.FeedEmojisDistinguishCategories` | frontend/src/components/Map/Map.js:122-123 | `water_quality`, `wildlife` and `plant` each get a different emoji; two types share an emoji exactly when they share a feed colour |
| `MapView.LabelReplacesFirstUnderscore` | frontend/src/components/Map/Map.js:126 | character by character, the label is the type with the first underscore turned into a space and every other character kept |
| `MapView.LabelRemovesOneUnderscore` | frontend/src/components/Map/Map.js:126 | a type without underscore is its own label; otherwise the label has exactly one underscore fewer |
| `MapView.LabelAtFirstUnderscore` | frontend/src/components/Map/Map.js:126 | whatever precedes the first underscore is kept, that underscore becomes a space, and the rest is kept verbatim, later underscores included |
| `MapView.PopupTitle` | frontend/src/components/Map/Map.js:151 | the popup heading is the label upper-cased: each character upper-cased, the first underscore a space |
| `MapView.WaterQualityLabel` | frontend/src/components/Map/Map.js:126 | `water_quality` is labelled `water quality` |
| `MapView.AirQualityTitle` | frontend/src/components/Map/Map.js:151 | the popup heading of `air_quality` is `AIR QUALITY` |
| `CurriculumActivity.Lookup` | frontend/src/components/Dashboard/CurriculumActivity.js:5-43 | an id finds an activity exactly when it is `"1"` or `"2"`, and the activity found has that id |
| `CurriculumActivity.Render` | frontend/src/components/Dashboard/CurriculumActivity.js:46-89 | an unknown id shows only the not-found message; a known one shows its title, its rounded percentage, and one checkbox per protocol step carrying that step's text, each checked exactly when `!!checkedSteps[i]` |
| `CurriculumActivity.Toggled` | frontend/src/components/Dashboard/CurriculumActivity.js:50-55 | a toggle adds at most the toggled key, flips that step's view, and keeps every other entry |
| `CurriculumActivity.IsChecked` | frontend/src/components/Dashboard/CurriculumActivity.js:89 | a step reads as checked only when the map has an entry for it |
| `CurriculumActivity.CheckedCount` | frontend/src/components/Dashboard/CurriculumActivity.js:57 | the count of true entries is at most the number of entries |
| `CurriculumActivity.NoneCheckedIffZero` | frontend/src/components/Dashboard/CurriculumActivity.js:57 | the count is 0 exactly when no entry of the map is true |
| `CurriculumActivity.CheckedSetAfterWrite` | frontend/src/components/Dashboard/CurriculumActivity.js:50-57 | writing a flag at one index adds that index to the counted steps or removes it, and leaves every other step alone |
| `CurriculumActivity.ToggleFlipsOnlyThatStep` | frontend/src/components/Dashboard/CurriculumActivity.js:50-55 | after a toggle, the toggled step's view is negated and every other step reads as before |
| `CurriculumActivity.ToggleCount` | frontend/src/components/Dashboard/CurriculumActivity.js:50-57 | a toggle moves the checked count down by one if the step was checked, otherwise up by one |
| `CurriculumActivity.ToggleTwice` | frontend/src/components/Dashboard/CurriculumActivity.js:50-55 | toggling a step twice restores every step's view and the count; the map keeps an explicit entry for that step |
| `CurriculumActivity.CountWithinSteps` | frontend/src/components/Dashboard/CurriculumActivity.js:85-90 | when every key is a protocol index, no more steps are checked than the protocol has |
| `CurriculumActivity.AllCheckedIffFull` | frontend/src/components/Dashboard/CurriculumActivity.js:57 | with protocol-index keys, the count reaches the step count exactly when every step is checked |
| `CurriculumActivity.ProgressPercent` | frontend/src/components/Dashboard/CurriculumActivity.js:57 | no protocol gives 0; otherwise the value is 100 × checked / steps rounded half up |
| `CurriculumActivity.ProgressBounded` | frontend/src/components/Dashboard/CurriculumActivity.js:57 | with no more checked than steps the percentage is in [0, 100]; it is 0 with nothing checked and 100 with every step checked |
| `CurriculumActivity.TwoOfFiveIsForty` | frontend/src/components/Dashboard/CurriculumActivity.js:17-23 | two of the five water-health steps give 40 |
| `CurriculumActivity.NoProtocolIsZero` | frontend/src/components/Dashboard/CurriculumActivity.js:31-38 | the activity without protocol always shows 0, never NaN |
| `CurriculumActivity.InitiallyNothingChecked` | frontend/src/components/Dashboard/CurriculumActivity.js:44 | on an empty map every step reads unchecked and the percentage is 0 |
| `CurriculumActivity.Checklist.constructor` | frontend/src/components/Dashboard/CurriculumActivity.js:44 | a visit starts with an empty map |
| `CurriculumActivity.Checklist.ToggleStep` | frontend/src/components/Dashboard/CurriculumActivity.js:50-55 | the map becomes the toggled map; a protocol index keeps every key a protocol index |
| `CurriculumActivity.Checklist.Progress` | frontend/src/components/Dashboard/CurriculumActivity.js:57 | 0 on an empty map and 0 for an activity without protocol |
| `CurriculumActivity.Checklist.ProgressWithinBounds` | frontend/src/components/Dashboard/CurriculumActivity.js:57-89 | while every key is a protocol index, the percentage is at most 100, and 100 once every step is checked |
| `CitizenDashboard.JsRemainder` | frontend/src/components/Dashboard/CitizenDashboard.js:42 | JavaScript's `%`: the remainder is smaller than the divisor in size, takes the dividend's sign, and differs from the dividend by a multiple of the divisor |
| `CitizenDashboard.LevelProgress` | frontend/src/components/Dashboard/CitizenDashboard.js:42 | 0 with no profile; for non-negative XP it is (XP mod 500) / 5, in [0, 100), so the cap at 100 never applies |
| `CitizenDashboard.XpToNextLevel` | frontend/src/components/Dashboard/CitizenDashboard.js:67 | adding the figure to the XP always lands on a multiple of 500; the figure is in [1, 500] for non-negative XP and in [500, 1000) for negative XP |
| `CitizenDashboard.XpToNextLevelReachesNextLevel` | frontend/src/components/Dashboard/CitizenDashboard.js:67 | for non-negative XP the figure is in [1, 500]; adding it lands on the next multiple of 500; it is 500 exactly for multiples of 500 |
| `CitizenDashboard.ProgressAndRemainingAgree` | frontend/src/components/Dashboard/CitizenDashboard.js:42-67 | the bar's percentage plus the remaining XP over 5 is 100 |
| `CitizenDashboard.ProgressionExamples` | frontend/src/components/Dashboard/CitizenDashboard.js:42-67 | 1250 XP gives 50 and 250 to go; 1000 XP gives 0 and 500 to go |
| `CitizenDashboard.Streak` | frontend/src/components/Dashboard/CitizenDashboard.js:85 | 0 exactly when there is no profile or the streak is missing or 0; otherwise the profile's streak |
| `CitizenDashboard.TypeCounts` | frontend/src/components/Dashboard/CitizenDashboard.js:26-27 | one bucket per category, each counting that category's records; the buckets sum to at most the length, with equality exactly when every type is known |
| `CitizenDashboard.Dashboard.constructor` | frontend/src/components/Dashboard/CitizenDashboard.js:13-17 | the total and all four buckets start at 0, with no profile |
| `CitizenDashboard.Dashboard.ObservationsLoaded` | frontend/src/components/Dashboard/CitizenDashboard.js:26-28 | the total becomes the list length and each bucket its category's count; the buckets never add up to more than the total |
| `CitizenDashboard.Dashboard.ProfileLoaded` | frontend/src/components/Dashboard/CitizenDashboard.js:31-34 | a completed profile fetch installs the profile |
| `EducatorDashboard.ToCsv` | frontend/src/components/Dashboard/EducatorDashboard.js:37-43 | the export fails exactly when the dataset is empty |
| `EducatorDashboard.Cell` | frontend/src/components/Dashboard/EducatorDashboard.js:38-42 | a cell is empty exactly when the key is missing or the encoder wrote nothing, so a null (written `""`) is never empty; an encoded value never puts a line break in the cell |
| `EducatorDashboard.RowCells` | frontend/src/components/Dashboard/EducatorDashboard.js:42 | one cell per header key; when every value is the encoder's output, no cell holds a line break |
| `EducatorDashboard.CsvLines` | frontend/src/components/Dashboard/EducatorDashboard.js:40-42 | one line per record plus the header line |
| `EducatorDashboard.RowCellsFollowHeader` | frontend/src/components/Dashboard/EducatorDashboard.js:42 | one cell per header key in header order: empty for a missing key, `""` for null, the encoder's text otherwise |
| `EducatorDashboard.OnlyHeaderKeysMatter` | frontend/src/components/Dashboard/EducatorDashboard.js:39-42 | records that agree on the first record's keys give the same row; keys only in later records are dropped |
| `EducatorDashboard.SplitJoin` | frontend/src/components/Dashboard/EducatorDashboard.js:43 | splitting CR LF-joined lines at CR LF gives the lines back when no line holds a carriage return |
| `EducatorDashboard.CsvHasOneLinePerRecord` | frontend/src/components/Dashboard/EducatorDashboard.js:39-43 | for a non-empty dataset whose header keys hold no carriage return, the text splits into exactly records + 1 lines: the keys joined by commas, then each record's cells joined by commas |
| `EducatorDashboard.StartControlFor` | frontend/src/components/Dashboard/EducatorDashboard.js:80-86 | a card gets a start link exactly when its status is `Active`, and the link is `/activity/` plus its id |
| `EducatorDashboard.StartLinksResolve` | frontend/src/components/Dashboard/EducatorDashboard.js:80-81 | every start link leads to an id the activity page finds, with the same title; the second card gets the disabled button |

## Left out

- Network fetching (axios calls, `useEffect` loaders, loading flags, `console.error`, the `alert`) is left out. Fetch results arrive as method arguments (`Explorer.Loaded`, `Dashboard.ObservationsLoaded`, `Dashboard.ProfileLoaded`), and a failed CSV export is the `Failure` result.
- The HTTP client with its token interceptor (`services/api.js`), routing (`App.js`) and the landing page are not part of this model.
- The badges and leaderboard components are not part of this model.
- The Leaflet map, tile layer, geolocation marker, icon URLs and CSS are left out. A marker icon is modelled by its colour only.
- Dates are left out, because `toLocaleDateString` depends on the locale.
- The Blob/DOM download steps are left out.
- Property lookups that hit inherited `Object.prototype` members are not modelled. Examples are a type or id `constructor` or `toString` in `counts[...]`, `icons[...]` and `activitiesData[...]`. Such keys are treated as absent.
- Latitude, longitude, description, measurements, image and timestamp are carried but never computed on. Non-string `type` values, on which `replace` would throw, are not modelled.
- `Object.keys` orders integer-like keys first. The first record's key order is taken as given.
- `JSON.stringify` is opaque: a non-null value carries its encoded text. Its escaping, and the replacer's effect on nulls nested inside objects or arrays, are not modelled. The only assumption is that its output holds no raw line break.
- A checklist that stays mounted while the URL id changes is not modelled.
- The activity page's resource icons (video or document) are not modelled.
- `LevelProgress`: computed with exact reals rather than IEEE doubles.
- `ProgressPercent`: computed by exact integer rounding half up, not by IEEE division and `Math.round`. A protocol that is an empty array with a checked step would give `Infinity` in the source; the model gives 0. No activity has an empty protocol, and an empty protocol renders no checkbox.
- `PopupTitle`: upper-cases ASCII letters only, where `toUpperCase` covers all of Unicode.
