# Animal sheet normalizer and snapshot cache, in Dafny

This project models the data pipeline of *tiere-von-bullerbyn*. A spreadsheet of animals is
published as CSV and parsed into rows (column name to cell text). The rows are normalized into
a snapshot `{info, species}`:

- `info` maps each animal's trimmed name to its whole raw row;
- `species` lists the distinct species tags.

This normalization exists twice: once in the runtime loader (`fetchFromGoogle` in
`src/composables/useAnimalData.js`) and once in the build script (`main` in
`scripts/build-animals.mjs`), which writes the snapshot as a bundled mirror. At runtime the
snapshot is cached in `localStorage` under two versioned keys, with a 24-hour freshness window.
The bundled mirror can also be loaded, with missing parts defaulting to empty.

Modules, one per concept:

- `Text`: ECMAScript `trim` (the full ECMAScript white-space and line-terminator set) and `toLowerCase`.
- `Normalizer`: the shared rules and the reference definition `Normalized`. Each row has an `Effect` (skipped, or a record under a name with a tag), and `Normalized` applies the rows' effects in input order. Its lemmas cover the skip rule, last write wins, the key set, and species de-duplication in first-occurrence order.
- `UseAnimalData`: the runtime module. It holds the cache keys, the TTL, `loadFromLocalMirror`, `loadFromCache`, `saveCache`, and the `forEach` loop of `fetchFromGoogle`.
- `BuildAnimals`: the `for...of` loop of the build script and the artifact it writes.
- `Agreement`: shows that both loops give the same snapshot, and that the mirror the build writes loads back as that snapshot.
- `Storage`: `localStorage` as a class whose `items` map the methods update in place.
- `Json`, `Codec`: parsed JSON values with JavaScript truthiness, and the JSON form of a snapshot.
- `Http`: the fetch outcome, taken as an input.
- `Scenarios`: concrete sheets.

Both loops are imperative methods. Each one's invariant ties the partial `info` and species
Set to `Normalized` of the rows seen so far.

Four points where the code's behaviour is easy to misread:

- `species` is not an unordered set. It is `Array.from` of a JavaScript `Set`, so it lists tags in first-occurrence order, and the model proves that order.
- The TTL comparison is strict (`now - timestamp < TTL`).
- The mirror is not structurally validated. Only a falsy or missing `info` or `species` is replaced by `{}` or `[]`.
- Entries are accepted when they are truthy. Their shape is not checked.

## Model

| member | source | states |
|---|---|---|
| Text.TrimStartIsSuffix | src/composables/useAnimalData.js:52 | removing leading white space leaves the longest suffix that does not start with white space; everything removed is white space |
| Text.TrimEndIsPrefix | src/composables/useAnimalData.js:52 | removing trailing white space leaves the longest prefix that does not end in white space; everything removed is white space |
| Text.TrimIsSlice | src/composables/useAnimalData.js:52-53 | `trim()` gives a contiguous slice of its input that neither starts nor ends with white space, with only white space cut off on either side |
| Text.TrimIdempotent | src/composables/useAnimalData.js:52-53 | trimming a trimmed cell changes nothing |
| Text.TrimEmptyIff | src/composables/useAnimalData.js:54 | a cell trims to the empty string exactly when it is all white space, so such a name or species is skipped |
| Text.ToLowerHasNoCapitals | src/composables/useAnimalData.js:53 | after `toLowerCase()` no character is an ASCII capital |
| Text.ToLowerFixedIff | src/composables/useAnimalData.js:53 | `toLowerCase()` leaves a string unchanged exactly when it holds no ASCII capital |
| Text.ToLowerIdempotent | src/composables/useAnimalData.js:53 | lowercasing a lowercased tag changes nothing |
| Normalizer.Canonical | src/composables/useAnimalData.js:56-57 | the tag is `pigs` exactly for `pig`, `wild_boar` (and `pigs` itself); every other value passes through unchanged |
| Normalizer.LastWith | src/composables/useAnimalData.js:59 | over the rows' effects, the index of the last one that keeps a record under a given name: that effect keeps the name, no later one does, and -1 means none does |
| Normalizer.FirstWithTag | src/composables/useAnimalData.js:60 | over the rows' effects, the index of the first one that adds a given tag: that effect has the tag, no earlier one does, and the length means none does |
| Normalizer.FirstWithTagFound | src/composables/useAnimalData.js:60 | a tag has a first occurrence exactly when some surviving row carries it |
| Normalizer.NormalizedSnoc | src/composables/useAnimalData.js:49-62 | one more row in the input is one more loop iteration applied to the previous snapshot |
| Normalizer.BuildSkipInert | src/composables/useAnimalData.js:54 | removing a skipped effect from anywhere in the sequence leaves the snapshot unchanged |
| Normalizer.BuildLastWrite | src/composables/useAnimalData.js:59 | the record keys are the names of the kept effects, and each record is the row of the last effect with that name |
| Normalizer.BuildSpecies | src/composables/useAnimalData.js:60 | the species list has no duplicates, holds exactly the tags of the kept effects, and is ordered by first occurrence |
| Normalizer.SkippedRowIsInert | src/composables/useAnimalData.js:52-54 | a row whose trimmed name, or trimmed lowercased species, is empty or missing changes neither `info` nor `species`, wherever it stands in the input |
| Normalizer.InfoIsLastWrite | src/composables/useAnimalData.js:59 | the keys of `info` are exactly the trimmed names of the surviving rows, and `info[k]` is the whole raw row of the last surviving row named `k` |
| Normalizer.SpeciesInFirstOccurrenceOrder | src/composables/useAnimalData.js:49-63 | `species` has no duplicates; its members are exactly the tags of all surviving rows, including overwritten ones; they appear in order of first occurrence |
| Normalizer.EveryRecordTagged | src/composables/useAnimalData.js:59-60 | the tag of every record kept in `info` is in `species` |
| Normalizer.EntryCount | scripts/build-animals.mjs:39 | `Object.keys(info).length` equals the number of distinct trimmed names among the surviving rows |
| Codec.RowRoundTrip | src/composables/useAnimalData.js:36 | a raw row's JSON form decodes back to the same row |
| Codec.InfoRoundTrip | src/composables/useAnimalData.js:36 | the JSON form of `info` decodes back to the same records and is truthy |
| Codec.SpeciesRoundTrip | src/composables/useAnimalData.js:38 | the JSON form of `species` decodes back to the same list and is truthy, even when empty |
| UseAnimalData.LoadFromLocalMirror | src/composables/useAnimalData.js:8-20 | never fails; a failed import gives `{info: {}, species: []}`; a truthy `info` or `species` of the mirror is returned as it is, and a missing or falsy one becomes `{}` or `[]` |
| UseAnimalData.MirrorOfBuildArtifact | src/composables/useAnimalData.js:11-16 | loading the mirror the build script writes returns exactly that snapshot's `info` and `species` |
| UseAnimalData.LoadFromCache | src/composables/useAnimalData.js:22-31 | a hit exactly when both keys hold entries that parse to truthy values and `now - timestamp < TTL`; the hit is `{info: cached.data, species}`; a missing, empty, unparseable or expired entry gives a miss, never an error |
| UseAnimalData.SaveCache | src/composables/useAnimalData.js:33-39 | writes `{data: info, timestamp: now}` under `animal_info_v1` and `species` under `animal_species_v1`; every other key is unchanged |
| UseAnimalData.LoadAfterSave | src/composables/useAnimalData.js:22-39 | after `saveCache(info, species)` at time `t`, `loadFromCache(now)` hits exactly when `now - t < 86400000`, and the hit decodes to `info` and `species` |
| UseAnimalData.TtlBoundary | src/composables/useAnimalData.js:6 | after a save, the cache is valid at 23h59m and at 24h minus 1 ms; it is invalid at exactly 24h and at 24h00m01s |
| UseAnimalData.MissStaysMiss | src/composables/useAnimalData.js:26 | with the store unchanged, a cache miss stays a miss as the clock moves forward |
| UseAnimalData.FetchFromGoogle | src/composables/useAnimalData.js:41-64 | an unsuccessful response fails with its HTTP status; otherwise the `forEach` loop returns `Normalized` of the parsed rows |
| BuildAnimals.BuildMirror | scripts/build-animals.mjs:9-40 | an unsuccessful response fails with its HTTP status; otherwise the `for...of` loop's snapshot is `Normalized` of the rows, the artifact is `{info, species}`, and the logged entry count is the number of distinct surviving names |
| Agreement.BothCopiesAgree | scripts/build-animals.mjs:16-34 | for the same response, the runtime and build copies fail alike or give the same snapshot, and the mirror the build writes loads back as the runtime snapshot |
| Scenarios.TagExamples | src/composables/useAnimalData.js:53-57 | `Pig`, `WILD_BOAR` and `wild_boar ` give the tag `pigs`; `Cat` gives `cat` |
| Scenarios.ExampleSheet | src/composables/useAnimalData.js:48-63 | the sheet Bella/Cat, Max/Dog, (blank)/Fish, Rex/` wild_boar ` gives the records Bella, Max and Rex and the species `cat`, `dog`, `pigs` |
| Scenarios.DuplicateName | src/composables/useAnimalData.js:59-60 | of two rows named Bella, `info` keeps the later one, and both tags are in `species` |

## Left out

- The HTTP request is not modelled. Its outcome (`ok`, `status`, and the parsed rows) is an input. This leaves out the `cache: 'no-cache'` option, reading the body, and the fixed build-time URL.
- The thrown `Error` is modelled as its HTTP status. The message text `HTTP <status>` is not built.
- `Papa.parse` is a foreign CSV library, so its output is taken as the row sequence. Cells are strings. The extra-field arrays Papa can attach to a row are not modelled.
- `JSON.stringify` and `JSON.parse` are not modelled. A stored value is the parsed JSON value, the empty string, or text that makes `JSON.parse` throw. The artifact's two-space layout is not modelled. JSON numbers are integers.
- The dynamic `import` of the mirror is an optional input: its default export, or nothing when the import fails.
- `Date.now()` is a parameter.
- The real `localStorage` is replaced by the `Storage.LocalStorage` class.
- The build script's file system writes, `console.log` and `process.exit(1)` are I/O and are not modelled. The logged entry count is returned instead.
- src/stores/animals.js (a state holder whose only action assigns a field) and vite.config.js (bundler settings) are not part of this model.
- The load order "cache, then mirror, then live fetch" is done by a caller that is not in these source files, so it is not part of this model.
- Text.ToLower: only ASCII capitals are lowercased. Other Unicode case mappings are not modelled.
- UseAnimalData.LoadFromCache: a timestamp that is a string, an array or an object is treated as NaN, which makes the entry expired. JavaScript converts such values to numbers instead: `""`, a blank string and `[]` become 0, and a numeric string or a one-element array becomes its number. So an entry with such a timestamp can be a hit in JavaScript (for example `timestamp: []` at `now = 0`), while the model reports a miss.
- UseAnimalData.SaveCache: both writes always succeed. `localStorage.setItem` can throw (quota exceeded, storage disabled), and `saveCache` does not catch it. If the second write throws after the first succeeded, the store holds the new `animal_info_v1` beside the old `animal_species_v1`, and a later `loadFromCache` can hit with mismatched `info` and `species`. The model does not capture this partial write.
- Normalizer.Step: `info` is treated as a plain dictionary. In JavaScript, an assignment to `info["__proto__"]` would set the object's prototype instead of adding a key.
- Asynchrony is not modelled (`async`/`await` with a single caller).
