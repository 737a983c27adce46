# clash-sim village core in Dafny

clash-sim reads a village snapshot (a list of buildings with kind, level and
placement) and a building catalog (one document per kind: footprint, "max
count", one record per level). Two functions of `src/main.py` hold the logic
modelled here:

- **`generate_sctructure_list`** — the structure resolver. It expands raw
  buildings into structure records and loads each kind's catalog document
  into a shared cache the first time that kind is met. A kind whose "max
  count" is 1 gets the cached level record itself, written in place with the
  building's level, kind, position and the catalog size. Any other kind gets
  one deep copy of the level record per entry of `positions`, each written
  with the same four fields.
- **`validate_village`** — the village validator. A first pass finds the
  townhall (the last one wins). It also picks the "previous townhall" level
  record and groups structure levels by kind. The validator then sums the
  townhall record's four count tables and four level tables key by key. It
  runs the unknown-kind, count-ceiling and level-ceiling checks on every kind.
  When a previous record applies, it also runs the floor check against that
  record's summed count tables. It returns a boolean and prints the warnings
  it recorded, in order.

Modules, one file each:

| file | module | what it holds |
|---|---|---|
| `dicts.dfy` | `Dicts` | Python dicts as insertion-ordered association lists (`Get`, `Set`, `d.get(k, 0)`), and the key-wise summing merge of a list of tables with its loop |
| `levels.dfy` | `Levels` | `str(level)` and `int(...)` on decimal text and their round trip |
| `catalog.dfy` | `Catalog` | catalog documents, level records as mutable objects (`Record`), the cache of loaded documents (`BuildingCache`) and the document loader |
| `resolver.dfy` | `Resolver` | the resolver on values (`Resolve`, `Step`, reference definitions `ExpandAll` and `FinalRecord`), its lemmas, and the imperative resolver over the cache's objects |
| `validator.dfy` | `Validator` | the validator on values (`Validate` and the functions of its passes), its lemmas, and the imperative validator loop by loop |

Each imperative method is proved against a function on values. The
properties the source promises are then proved about those functions as
lemmas. `GenerateStructureList` ensures that, after it runs, the cache's
contents are `Resolve(...).cache`. It also ensures that each structure
object stands for the handle at its index in `Resolve(...).handles`:

- **a shared handle** stands for the very record object the cache holds at
  that kind and level;
- **an own handle** stands for an object with the given contents. That
  object is new, outside the cache, and distinct from every other copy.

`ValidateVillage` ensures its `(valid, warnings)` equal `Validate`'s verdict.

## Model

| member | source | states |
|---|---|---|
| Dicts.Get | src/main.py:70 | `d.get(k)` is None exactly when k is not a key |
| Dicts.Set | src/main.py:36-38 | after `d[k] = v`, looking k up gives v |
| Dicts.SetKeys | src/main.py:35-38 | an existing key keeps its place; a new key is appended last |
| Dicts.SetOther | src/main.py:35-38 | assigning one key leaves every other key's value unchanged |
| Dicts.SetDistinct | src/main.py:35-38 | assignment keeps every key unique |
| Dicts.AddAllGet | src/main.py:56-57 | absorbing one table adds its value to each of its keys (from 0 for a new key) and leaves other keys alone |
| Dicts.AddTablesGet | src/main.py:55-57 | absorbing a list of tables gives each key occurring in some table its old value plus the sum over the tables; other keys keep their values |
| Dicts.AddTablesKeys | src/main.py:55-57 | the keys after absorbing are the old keys, then each new key in first-occurrence order, each once |
| Dicts.CombineKeys | src/main.py:54-62 | the combined table's keys are the union of the tables' keys, in first-occurrence order, without repeats |
| Dicts.CombineGet | src/main.py:54-62 | the combined value of a key is the sum of `t.get(k, 0)` over the tables; a key in no table is absent |
| Dicts.GetOr | src/main.py:57 | `d.get(k, default)`: the stored value when `Dicts.Get` finds one, the default otherwise; the merge lemmas `Dicts.AddEntryGet` and `Dicts.AddAllGet` use it |
| Dicts.AddEntry | src/main.py:57 | one `acc[key] = acc.get(key, 0) + value`; `Dicts.AddEntryGet` states it adds the value to that key (from 0) and leaves other keys alone |
| Dicts.AddEntryGet | src/main.py:57 | one update adds the value to its key, starting from 0 for a new key, and leaves every other key unchanged |
| Dicts.AddAll | src/main.py:56-57 | an inner merge loop over one table; characterised by `Dicts.AddAllGet` and `Dicts.AddAllKeys` |
| Dicts.AddAllKeys | src/main.py:56-57 | absorbing one table keeps the old keys in place and appends its new keys in order |
| Dicts.AddTables | src/main.py:55-57 | the outer merge loop over a list of tables, absorbing each in turn; characterised by `Dicts.AddTablesGet` and `Dicts.AddTablesKeys` |
| Dicts.Combine | src/main.py:54-62 | the summing merge of a list of tables into an empty dict; characterised by `Dicts.CombineKeys` and `Dicts.CombineGet` |
| Dicts.AbsorbTable | src/main.py:56-57 | the inner merge loop computes `AddAll(acc, t)` |
| Dicts.CombineTables | src/main.py:100-103 | the merge loop over a list of tables computes `Combine(ts)`, the same rule for the max tables and the floor table |
| Levels.NatToString | src/main.py:135 | `str(n)` of a natural number is a non-empty run of digits |
| Levels.IntToString | src/main.py:135 | `str(level)` is decimal text. Its inverse is `Levels.ParseInt` (`Levels.ParseIntToString`), and it is injective (`Levels.IntToStringInjective`) |
| Levels.NatToStringCanonical | src/main.py:135 | `str(n)` is "0" for zero and otherwise has no leading zero, the spelling the catalog's level keys use |
| Levels.ParseInt | src/main.py:27 | `int(...)` on decimal text; `Levels.ParseIntToString` shows it inverts `str` |
| Levels.ParseIntToString | src/main.py:27 | `int(str(i)) == i`: the validator reads back the level the resolver wrote |
| Levels.IntToStringInjective | src/main.py:144 | distinct levels are keyed by distinct level texts |
| Catalog.CountTables | src/main.py:55 | the four count tables in the order the merge loops take them (resources, army, defense, traps), as at src/main.py:55 and 101 |
| Catalog.LevelTables | src/main.py:60 | the four level tables in the order the level merge takes them (resources, army, defense, traps) |
| Catalog.Placed | src/main.py:145-148 | a record's value after the four writes: level, type, position and size replaced, the capacity tables kept; `Catalog.Record.Place` is proved to produce it |
| Catalog.Record.constructor | src/main.py:138 | a record loaded from a document holds that document's contents |
| Catalog.Record.Copy | src/main.py:155 | `copy.deepcopy` gives a new object with equal contents |
| Catalog.Record.Place | src/main.py:145-148 | the resolver's four writes set level, type, position and size and leave the capacity tables alone |
| Catalog.LoadDocument | src/main.py:138 | a loaded document has one new record object per level, no two shared, holding the document's contents |
| Catalog.InjectiveInsert | src/main.py:139 | caching a freshly loaded document keeps every (kind, level) slot its own object |
| Catalog.DataInsert | src/main.py:139 | caching a document adds exactly that document's contents |
| Resolver.Emit | src/main.py:141-161 | one building's structures and cache update once its kind is cached. A single-instance kind's record is written in place and shared; otherwise one written copy per position, with no record read when there are no positions. `Resolver.EmitBuilding` is proved to perform it |
| Resolver.Step | src/main.py:133-161 | one loop iteration: load the kind if missing (`Resolver.Loaded`), then `Resolver.Emit`. Characterised by `Resolver.StepShape` and `Resolver.StepCache` |
| Resolver.StepCache | src/main.py:143-150 | after one iteration, a cached record is written exactly when it is the single-instance record at the building's kind and level |
| Resolver.Expand | src/main.py:143-161 | reference definition of one building's structures, independent of the cache's history; `Resolver.ResolveHandles` equates the run with it |
| Resolver.ExpandAll | src/main.py:133-163 | reference expansion of the whole input, in input order; `Resolver.ResolveHandles` and `Resolver.ExpandAllLength` relate it to the run |
| Resolver.FinalRecord | src/main.py:143-161 | reference value of a cached record after the run: written by the last building placed at it if the kind is single-instance, as loaded otherwise. `Resolver.ResolveCache` equates the run with it |
| Resolver.FinalRecordStep | src/main.py:143-150 | the reference record changes with the last building exactly when that building is single-instance and placed at it |
| Resolver.LastPlacementAt | src/main.py:143-150 | the last building at a kind and level is the one no later building repeats |
| Resolver.ReadsRecord | src/main.py:142-155 | the level record is read for a single-instance kind, and for a multi-instance kind once per position, so never when `positions` is empty |
| Resolver.Resolvable | src/main.py:135-155 | what a building needs not to raise: a document for its kind, `positions` for a multi-instance kind, and a level record wherever `Resolver.ReadsRecord` says it is read |
| Resolver.EmptyPositionsYieldNothing | src/main.py:152-153 | a multi-instance building with an empty `positions` list is resolvable whatever its level; its iteration only loads the kind and adds no structure |
| Resolver.Loaded | src/main.py:137-139 | the cache after the miss check: unchanged when the kind is cached, otherwise extended with the kind's document; `Resolver.LoadKind` is its imperative counterpart |
| Resolver.Resolve | src/main.py:133-163 | the resolver never loses a cached kind; no entry changes its size, max count or level keys |
| Resolver.StepShape | src/main.py:137-161 | one iteration adds exactly the building's kind to the cache and preserves every entry's shape |
| Resolver.ResolveKeys | src/main.py:137-139 | the cache ends holding exactly the old kinds plus every input kind |
| Resolver.ResolveCache | src/main.py:137-161 | every cached record ends equal to its reference value: multi-instance records are never written, and a single-instance record carries the fields of the last building placed at it |
| Resolver.ResolveHandles | src/main.py:133-163 | the structures are the reference expansion, in input order and then positions order: a shared record for a single-instance kind, and otherwise one copy per position carrying the building's kind, level text, catalog size and that position |
| Resolver.ExpandAllLength | src/main.py:133-161 | one structure per single-instance building plus `len(positions)` per multi-instance building |
| Resolver.SingletonsAlias | src/main.py:143-150 | single-instance buildings of one kind and level all resolve to the same cached record, which ends written with the last one's fields |
| Resolver.ResolvePrefix | src/main.py:133 | one more loop iteration advances the run by one `Step` |
| Resolver.RealizesAppend | src/main.py:150 | appending structures keeps every structure standing for its handle |
| Resolver.RealizesExtend | src/main.py:139 | a cache that only gains kinds keeps shared structures realised |
| Resolver.LoadKind | src/main.py:137-139 | a cache miss loads the kind's document into new objects and keeps every existing kind's entry as it was; a hit changes nothing |
| Resolver.PlaceShared | src/main.py:143-150 | the single-instance branch writes the cached record itself; only that slot of the cache changes, and the record is returned |
| Resolver.PlaceCopies | src/main.py:152-161 | the multi-instance branch makes one new written copy per position, in order, no two copies being one object; the level record is looked up only inside the loop, so an empty `positions` list needs none |
| Resolver.EmitBuilding | src/main.py:141-161 | one building's structures and the cache update are those of `Emit`, and earlier structures stay realised. Its copies are new and pairwise distinct |
| Resolver.EmitAppend | src/main.py:141-161 | one building's structures appended to the list so far: earlier structures kept, the new ones standing for `Emit`'s handles, every copy a new object distinct from all other copies |
| Resolver.ResolveNext | src/main.py:133-161 | one loop body advances the model state by `Step`, keeps old kinds and only adds new record objects. The structures built so far are kept and the new copies are new objects |
| Resolver.GenerateStructureList | src/main.py:122-163 | the cache ends as `Resolve` says and only gains kinds. The structures stand one by one for `Resolve`'s handles: shared ones are the cache's own records, and each copy is a new object outside the cache, distinct from every other copy |
| Resolver.CopiesDistinctAppend | src/main.py:161 | appending copies that are distinct from the earlier ones keeps all copies pairwise distinct |
| Resolver.PrefixResolvable | src/main.py:133 | every building of a loop prefix can be resolved |
| Validator.LevelOf | src/main.py:27 | `int(building.get("level"))` as `Levels.ParseInt` of the level text |
| Validator.RaisesFloor | src/main.py:32 | a structure selects a previous record exactly when it is a townhall, the cache holds townhall and its level is above 1 |
| Validator.PreviousRecord | src/main.py:33 | the cached townhall record at `str(level - 1)` |
| Validator.Townhall | src/main.py:29-30 | the first pass's `townhall`; characterised by `Validator.TownhallLast` |
| Validator.Previous | src/main.py:32-33 | the first pass's `previous_townhall`; characterised by `Validator.PreviousLast` |
| Validator.AddLevel | src/main.py:35-38 | one grouping update: a new kind gets `[l]`, a known kind gets `l` appended. `Validator.AddLevelNonEmpty` keeps groups non-empty, and `Validator.GroupLevels` and `Validator.GroupOrder` characterise the whole grouping |
| Validator.AddLevelNonEmpty | src/main.py:35-38 | a grouping update never leaves a group empty |
| Validator.Group | src/main.py:35-38 | no kind's group of levels is empty |
| Validator.Instances | src/main.py:35-38 | a kind has instance levels exactly when it occurs |
| Validator.TownhallLast | src/main.py:29-30 | there is no townhall exactly when no structure has type townhall; otherwise it is the last one |
| Validator.PreviousLast | src/main.py:32-33 | a previous record is selected exactly when the cache holds townhall and some townhall is above level 1; it is the record one level below the last such townhall |
| Validator.GroupLevels | src/main.py:35-38 | each kind is grouped once, with the levels of its instances in input order; a kind that never occurs has no group |
| Validator.GroupOrder | src/main.py:35-38 | the groups come in first-occurrence order of their kinds |
| Validator.FirstPass | src/main.py:25-38 | the first loop's townhall, previous record and grouping are `Townhall`, `Previous` and `Group` |
| Validator.Max | src/main.py:85 | `max(levels)` bounds every level and is one of them |
| Validator.Lookup | src/main.py:70 | a missing type or a kind absent from the table finds nothing |
| Validator.MaxCounts | src/main.py:44-57 | `max_combined_count`: the key-wise sum of the townhall's four count tables; `Dicts.CombineGet` and `Dicts.CombineKeys` state its values and keys. Also used for `min_combined_count` (src/main.py:94-103) on the previous record |
| Validator.MaxLevels | src/main.py:45-62 | `max_combined_level`: the key-wise sum of the townhall's four level tables, characterised by `Dicts.CombineGet` and `Dicts.CombineKeys` |
| Validator.KindCheck | src/main.py:65-87 | one kind's ceiling checks; characterised by `Validator.KindCheckWarnings` and `Validator.KindCheckValid` |
| Validator.KindCheckWarnings | src/main.py:65-87 | an unknown non-townhall kind gets "not found in townhall" and "count not found" only and is invalid, while townhall is exempt silently. Otherwise a kind gets "count is more than allowed" exactly when it has more instances than its count, "level not found" exactly when the level table lacks it, and "level is more than allowed" exactly when some instance exceeds its level |
| Validator.KindCheckValid | src/main.py:66-87 | a kind's checks fail exactly when they record something other than "level not found" |
| Validator.CheckKind | src/main.py:65-87 | one ceiling-loop iteration continues the verdict by that kind's checks |
| Validator.Ceilings | src/main.py:65-87 | the ceiling loop over the groups in order; characterised by `Validator.CeilingsMembers`, `Validator.CeilingsKinds`, `Validator.CeilingsValid` and `Validator.CeilingsOutcome` |
| Validator.CheckCeilings | src/main.py:65-87 | the ceiling loop computes `Ceilings` |
| Validator.CeilingsMembers | src/main.py:65-87 | the ceiling loop records exactly its kinds' warnings |
| Validator.CeilingsKinds | src/main.py:65-87 | the ceiling loop records ceiling warnings only |
| Validator.CeilingsValid | src/main.py:65-87 | the ceiling loop fails exactly when it records something other than "level not found" |
| Validator.CeilingsOutcome | src/main.py:65-87 | a ceiling warning about a kind is recorded exactly when that kind's checks on its group record it |
| Validator.FloorCheck | src/main.py:107-114 | one required kind's floor check; `Validator.FloorsOutcome` states what it records |
| Validator.Floors | src/main.py:106-114 | the floor loop over the required-count table in order; characterised by `Validator.FloorsMembers`, `Validator.FloorsValid` and `Validator.FloorsOutcome` |
| Validator.CheckFloors | src/main.py:106-114 | the floor loop continues the verdict by `Floors` |
| Validator.FloorsMembers | src/main.py:106-114 | the floor loop records exactly its entries' warnings and fails exactly when it records one |
| Validator.FloorsValid | src/main.py:106-114 | the floor loop fails exactly when it records something other than "level not found" |
| Validator.FloorsOutcome | src/main.py:106-114 | "not found" for a required kind the village lacks, "count is less than required" for one with fewer instances than required, and nothing else |
| Validator.Validate | src/main.py:8-119 | the validator's verdict; characterised by `Validator.NoTownhallInvalid`, `Validator.ValidIffOnlyLevelNotFound`, `Validator.FloorOnlyWithPrevious`, `Validator.CeilingOutcome`, `Validator.FloorOutcome` and `Validator.CeilingsBeforeFloors` |
| Validator.Message | src/main.py:67-113 | the recorded text of each warning kind (printed after a `[!] ` prefix), with a missing type written as None |
| Validator.ValidateVillage | src/main.py:8-119 | the returned flag and the recorded warnings are `Validate`'s verdict |
| Validator.NoTownhallInvalid | src/main.py:40-42 | without a townhall the result is False and no warning is recorded |
| Validator.ValidIffOnlyLevelNotFound | src/main.py:65-119 | with a townhall, the result is True exactly when every recorded warning is "level not found" |
| Validator.FloorOnlyWithPrevious | src/main.py:89-92 | no floor warning is recorded unless the cache holds townhall and some townhall is above level 1 |
| Validator.ValidateWarnings | src/main.py:65-114 | a warning is recorded exactly when the ceiling loop, or the floor loop when a previous record applies, records it |
| Validator.CeilingOutcome | src/main.py:65-87 | a ceiling warning about a kind is recorded exactly when the kind occurs and its checks on all its instance levels against the summed tables record it |
| Validator.FloorOutcome | src/main.py:106-114 | "not found" for a kind exactly when a previous record applies, its summed count tables name the kind and the village lacks it. "Count is less than required" exactly when the kind occurs fewer times than those tables require |
| Validator.CeilingsBeforeFloors | src/main.py:65-114 | checks never stop early and keep detection order: every ceiling warning precedes every floor warning |

## Left out

- Printing: the warnings are returned as a `Warning` sequence rather than
  printed (src/main.py:41, 90-91, 116-117). `Validator.Message` gives each
  warning's recorded text; the printed line is `"[!] "` followed by it.
- `main` (the pygame window, event loop and drawing) and the `__main__`
  block (config and argparse) are not part of this model. Neither is the way
  `main` feeds the resolver's structures to the validator.
- The JSON file read at src/main.py:138: the catalog is the `files` map,
  keyed by kind. `Catalog.LoadDocument` turns one document into new record
  objects. The file path built from the kind (spaces become underscores) is
  not modelled.
- Python exceptions are preconditions rather than modelled error paths:
  - `Resolver.Resolvable` covers a missing catalog file, a missing
    `positions` list for a multi-instance kind (src/main.py:153-154) and a
    missing level key where the record is read: always for a single-instance
    kind (src/main.py:144), and for a multi-instance kind only when
    `positions` is non-empty (src/main.py:155, inside the loop). A
    multi-instance building with no positions is accepted whatever its level
    (`Resolver.EmptyPositionsYieldNothing`);
  - `Validator.Checkable` covers `int(...)` failing (src/main.py:27), a
    missing level key for the previous record (src/main.py:33) and a missing
    capacity table (src/main.py:44-62, 94-103).
- Validator.Checkable: a level record carries either all eight capacity
  tables or none (`Option<Capacity>`). So the previous record must carry all
  eight, although the source reads only its four count tables. A record
  lacking some tables and not others is not modelled.
- Levels.ParseInt: `int(...)` is modelled on decimal digits with an optional
  minus sign. The other spellings Python accepts (surrounding whitespace, a
  plus sign, underscores) are not modelled. Structures built by the resolver
  always hold `str(level)`.
- Resolver.RawBuilding: a raw building's kind is a string and its level an
  integer. A building missing either is not modelled.
- Record fields the two functions never read or write (everything besides
  level, type, position, size and the eight capacity tables) are not
  modelled.
- Validator.ValidateVillage takes the structures and the cache as values,
  because the validator only reads them.
- Python integers are unbounded, so no width or wrap-around is modelled.

Behaviours of the code worth noting (the model follows the code):

- Several townhalls are allowed, and the last one is checked.
- The previous record comes from the last townhall above level 1 for which
  the cache holds townhall data. That need not be the last townhall.
- A missing record for level L-1 raises a `KeyError`; it is not skipped.
- "Level not found" does not make the village invalid.
- A required kind absent from the village gets "not found", not "count is
  less than required".
- A single-instance kind's structure is the cached record itself, not a copy.
- Nothing else about structures is computed or modelled.
