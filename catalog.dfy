/** The building catalog: one document per building kind, holding the
    footprint, the "max count", and one record per level. Level records are
    mutable dicts in the program (the resolver writes into them), so here a
    level record is an object and a catalog entry holds references to them. */
module Catalog {
  import opened Dicts

  datatype Size = Size(width: int, height: int)

  /** A position as stored in a structure: `[x, y]` built from a building's
      `x` and `y` (either may be missing), or one entry of its `positions`. */
  type Position = seq<Option<int>>

  /** The eight tables a townhall level record carries: the maximum number
      and the maximum level of each resource, army, defense and trap kind. */
  datatype Capacity = Capacity(
    resourceCount: Dict<string, int>, resourceLevel: Dict<string, int>,
    armyCount: Dict<string, int>, armyLevel: Dict<string, int>,
    defenseCount: Dict<string, int>, defenseLevel: Dict<string, int>,
    trapCount: Dict<string, int>, trapLevel: Dict<string, int>)

  /** The four count tables, in the order the validator merges them. */
  function CountTables(c: Capacity): seq<Dict<string, int>> {
    [c.resourceCount, c.armyCount, c.defenseCount, c.trapCount]
  }

  /** The four level tables, in the order the validator merges them. */
  function LevelTables(c: Capacity): seq<Dict<string, int>> {
    [c.resourceLevel, c.armyLevel, c.defenseLevel, c.trapLevel]
  }

  /** The fields of a level record that the program reads or writes:
      `level`, `type`, `position`, `size` and the capacity tables. */
  datatype RecordValue = RecordValue(
    level: Option<string>,
    kind: Option<string>,
    position: Option<Position>,
    size: Option<Size>,
    capacity: Option<Capacity>)

  /** A record after the resolver's four writes. */
  function Placed(v: RecordValue, level: string, kind: string, position: Position, size: Option<Size>): RecordValue {
    v.(level := Some(level), kind := Some(kind), position := Some(position), size := size)
  }

  /** A level record dict. */
  class Record {
    var level: Option<string>
    var kind: Option<string>
    var position: Option<Position>
    var size: Option<Size>
    var capacity: Option<Capacity>

    function Value(): RecordValue
      reads this
    {
      RecordValue(level, kind, position, size, capacity)
    }

    /** A record as loaded from a catalog document. */
    constructor (v: RecordValue)
      ensures Value() == v
    {
      level, kind, position, size, capacity := v.level, v.kind, v.position, v.size, v.capacity;
    }

    /** `copy.deepcopy(record)`: a new object with equal contents. */
    method Copy() returns (r: Record)
      ensures fresh(r) && r.Value() == Value()
    {
      r := new Record(Value());
    }

    /** The resolver's writes: `record['level']`, `['type']`, `['position']`
        and `['size']` are set; the capacity tables are left alone. */
    method Place(lvl: string, k: string, p: Position, sz: Option<Size>)
      modifies this
      ensures Value() == Placed(old(Value()), lvl, k, p, sz)
    {
      level, kind, position, size := Some(lvl), Some(k), Some(p), sz;
    }
  }

  /** A loaded catalog document: `size`, `max count` and the level records
      keyed by level text ("1", "2", ...). */
  datatype Entry = Entry(size: Option<Size>, maxCount: Option<int>, levels: map<string, Record>)

  /** The contents of an entry at one moment. */
  datatype EntryData = EntryData(size: Option<Size>, maxCount: Option<int>, levels: map<string, RecordValue>)

  ghost function LevelRecords(e: Entry): set<Record> {
    set l | l in e.levels :: e.levels[l]
  }

  ghost function RecordsOf(m: map<string, Entry>): set<Record> {
    set k, l | k in m && l in m[k].levels :: m[k].levels[l]
  }

  /** No two (kind, level) slots share a record object: every document is
      read into fresh dicts. */
  ghost predicate Injective(m: map<string, Entry>) {
    forall k1, l1, k2, l2 ::
      k1 in m && l1 in m[k1].levels && k2 in m && l2 in m[k2].levels && (k1, l1) != (k2, l2)
      ==> m[k1].levels[l1] != m[k2].levels[l2]
  }

  ghost function EntryValue(e: Entry): EntryData
    reads LevelRecords(e)
  {
    EntryData(e.size, e.maxCount, map l | l in e.levels :: e.levels[l].Value())
  }

  ghost function Data(m: map<string, Entry>): map<string, EntryData>
    reads RecordsOf(m)
  {
    map k | k in m :: EntryValue(m[k])
  }

  /** The contents `d` with the record at kind k, level l replaced by v. */
  function WriteSlot(d: map<string, EntryData>, k: string, l: string, v: RecordValue): map<string, EntryData>
    requires k in d
  {
    d[k := d[k].(levels := d[k].levels[l := v])]
  }

  /** No two level slots of one entry share a record object. */
  ghost predicate DistinctLevels(e: Entry) {
    forall l1, l2 :: l1 in e.levels && l2 in e.levels && l1 != l2 ==> e.levels[l1] != e.levels[l2]
  }

  /** Adding an entry whose records are its own keeps the cache injective. */
  lemma InjectiveInsert(m: map<string, Entry>, k: string, e: Entry)
    requires Injective(m) && k !in m && DistinctLevels(e)
    requires forall l :: l in e.levels ==> e.levels[l] !in RecordsOf(m)
    ensures Injective(m[k := e])
  {
    var m' := m[k := e];
    forall k1, l1, k2, l2 |
      k1 in m' && l1 in m'[k1].levels && k2 in m' && l2 in m'[k2].levels && (k1, l1) != (k2, l2)
      ensures m'[k1].levels[l1] != m'[k2].levels[l2]
    {
      if k1 == k && k2 != k {
        assert m'[k2].levels[l2] in RecordsOf(m);
      } else if k2 == k && k1 != k {
        assert m'[k1].levels[l1] in RecordsOf(m);
      }
    }
  }

  lemma DataInsert(m: map<string, Entry>, k: string, e: Entry)
    ensures Data(m[k := e]) == Data(m)[k := EntryValue(e)]
  {
  }

  /** `json.load` of a catalog document: an entry whose level records are
      new objects, one per level, holding the document's contents. */
  method LoadDocument(doc: EntryData) returns (e: Entry)
    ensures e.size == doc.size && e.maxCount == doc.maxCount && e.levels.Keys == doc.levels.Keys
    ensures forall l :: l in e.levels ==> fresh(e.levels[l]) && e.levels[l].Value() == doc.levels[l]
    ensures DistinctLevels(e) && EntryValue(e) == doc
  {
    var levels: map<string, Record> := map[];
    var rest := doc.levels.Keys;
    while rest != {}
      invariant rest <= doc.levels.Keys && levels.Keys == doc.levels.Keys - rest
      invariant forall l :: l in levels ==> fresh(levels[l]) && levels[l].Value() == doc.levels[l]
      invariant forall l1, l2 :: l1 in levels && l2 in levels && l1 != l2 ==> levels[l1] != levels[l2]
      decreases rest
    {
      var l :| l in rest;
      var r := new Record(doc.levels[l]);
      levels := levels[l := r];
      rest := rest - {l};
    }
    e := Entry(doc.size, doc.maxCount, levels);
  }

  /** The cache of loaded documents, keyed by building kind. */
  class BuildingCache {
    var entries: map<string, Entry>

    ghost predicate Valid()
      reads this
    {
      Injective(entries)
    }

    /** The empty cache the program starts with. */
    constructor ()
      ensures Valid() && entries == map[]
    {
      entries := map[];
    }
  }
}
