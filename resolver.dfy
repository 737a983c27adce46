/** The structure resolver: raw village buildings expanded into structure
    records, loading each kind's catalog document into the cache once. */
module Resolver {
  import opened Dicts
  import opened Levels
  import opened Catalog

  /** A building of the village snapshot: `type`, `level`, and the `x`/`y`
      of a single-instance kind or the `positions` of a multi-instance one. */
  datatype RawBuilding = RawBuilding(
    kind: string,
    level: int,
    x: Option<int>,
    y: Option<int>,
    positions: Option<seq<Position>>)

  /** What the resolver appends for one structure: the cached record itself
      (`Shared`, the same object the cache holds at that kind and level) or a
      fresh deep copy with its own contents (`Own`). */
  datatype Handle = Shared(kind: string, level: string) | Own(value: RecordValue)

  /** The cache's contents and the structure list built so far. */
  datatype State = State(cache: map<string, EntryData>, handles: seq<Handle>)

  /** The entry a kind resolves to: the cached one, else its document. */
  function Effective(cache: map<string, EntryData>, files: map<string, EntryData>, k: string): EntryData
    requires k in cache || k in files
  {
    if k in cache then cache[k] else files[k]
  }

  /** Whether the source reads the catalog record of `b`'s level from `e`:
      always for a single-instance kind, and otherwise once per position, so
      never when `positions` is empty. */
  predicate ReadsRecord(e: EntryData, b: RawBuilding) {
    e.maxCount == Some(1) || (b.positions.Some? && b.positions.value != [])
  }

  /** What the source needs of a building not to raise: a document for its
      kind, `positions` unless its kind is single-instance, and a record for
      its level whenever that record is read. */
  predicate Resolvable(cache: map<string, EntryData>, files: map<string, EntryData>, b: RawBuilding) {
    && (b.kind in cache || b.kind in files)
    && (Effective(cache, files, b.kind).maxCount != Some(1) ==> b.positions.Some?)
    && (ReadsRecord(Effective(cache, files, b.kind), b) ==> IntToString(b.level) in Effective(cache, files, b.kind).levels)
  }

  predicate AllResolvable(cache: map<string, EntryData>, files: map<string, EntryData>, bs: seq<RawBuilding>) {
    forall i :: 0 <= i < |bs| ==> Resolvable(cache, files, bs[i])
  }

  function Kinds(bs: seq<RawBuilding>): set<string> {
    set i | 0 <= i < |bs| :: bs[i].kind
  }

  predicate SameShape(a: EntryData, b: EntryData) {
    a.size == b.size && a.maxCount == b.maxCount && a.levels.Keys == b.levels.Keys
  }

  /** The cache once `b`'s kind is loaded: unchanged if present, else
      extended with that kind's document. */
  function Loaded(cache: map<string, EntryData>, files: map<string, EntryData>, k: string): map<string, EntryData>
    requires k in cache || k in files
  {
    if k in cache then cache else cache[k := files[k]]
  }

  /** What `Emit` needs: the building's kind loaded, `positions` unless the
      kind is single-instance, and a record for its level whenever it is read. */
  predicate Emittable(c: map<string, EntryData>, b: RawBuilding) {
    && b.kind in c
    && (c[b.kind].maxCount != Some(1) ==> b.positions.Some?)
    && (ReadsRecord(c[b.kind], b) ==> IntToString(b.level) in c[b.kind].levels)
  }

  /** The structures for `b` once its kind is loaded, and the cache
      afterwards: for a single-instance kind the cached record is written in
      place and shared; otherwise one written copy per position. */
  function Emit(c: map<string, EntryData>, b: RawBuilding): State
    requires Emittable(c, b)
  {
    var e := c[b.kind];
    var lvl := IntToString(b.level);
    if e.maxCount == Some(1) then
      State(WriteSlot(c, b.kind, lvl, Placed(e.levels[lvl], lvl, b.kind, [b.x, b.y], e.size)), [Shared(b.kind, lvl)])
    else
      var ps := b.positions.value;
      State(c, seq(|ps|, j requires 0 <= j < |ps| => Own(Placed(e.levels[lvl], lvl, b.kind, ps[j], e.size))))
  }

  /** One iteration of the resolver's loop. */
  function Step(cache: map<string, EntryData>, files: map<string, EntryData>, b: RawBuilding): State
    requires Resolvable(cache, files, b)
  {
    Emit(Loaded(cache, files, b.kind), b)
  }

  /** A multi-instance building with no positions is accepted whatever its
      level: its kind is loaded and it contributes no structure. */
  lemma EmptyPositionsYieldNothing(cache: map<string, EntryData>, files: map<string, EntryData>, b: RawBuilding)
    requires b.kind in cache || b.kind in files
    requires Effective(cache, files, b.kind).maxCount != Some(1) && b.positions == Some([])
    ensures Resolvable(cache, files, b)
    ensures Step(cache, files, b) == State(Loaded(cache, files, b.kind), [])
  {
  }

  /** The resolver run over `bs` from a cache holding `cache`: the cache
      afterwards and the structures appended. The cache never loses a key,
      and no entry changes its size, max count or level keys. */
  function Resolve(cache: map<string, EntryData>, files: map<string, EntryData>, bs: seq<RawBuilding>): (r: State)
    requires AllResolvable(cache, files, bs)
    ensures forall k :: k in cache ==> k in r.cache
    ensures forall k :: k in r.cache ==> (k in cache || k in files) && SameShape(r.cache[k], Effective(cache, files, k))
    decreases |bs|
  {
    if bs == [] then State(cache, [])
    else
      var init := bs[..|bs| - 1];
      var b := bs[|bs| - 1];
      var s := Resolve(cache, files, init);
      assert Resolvable(s.cache, files, b) by {
        assert Resolvable(cache, files, b);
      }
      var t := Step(s.cache, files, b);
      StepShape(s.cache, files, b);
      State(t.cache, s.handles + t.handles)
  }

  lemma StepShape(cache: map<string, EntryData>, files: map<string, EntryData>, b: RawBuilding)
    requires Resolvable(cache, files, b)
    ensures forall k :: k in Step(cache, files, b).cache <==> k in cache || k == b.kind
    ensures forall k :: k in Step(cache, files, b).cache ==>
              (k in cache || k in files) && SameShape(Step(cache, files, b).cache[k], Effective(cache, files, k))
  {
    var c := if b.kind in cache then cache else cache[b.kind := files[b.kind]];
    var e := c[b.kind];
    var lvl := IntToString(b.level);
    if e.maxCount == Some(1) {
      var placed := Placed(e.levels[lvl], lvl, b.kind, [b.x, b.y], e.size);
      assert e.levels[lvl := placed].Keys == e.levels.Keys;
    }
  }

  /** Reference definition of the structures one building contributes,
      independent of the cache's history: one shared record for a
      single-instance kind, one copy of the catalog record per position
      otherwise, each with the building's level, kind, the catalog size and
      its position. */
  function Expand(cache: map<string, EntryData>, files: map<string, EntryData>, b: RawBuilding): seq<Handle>
    requires Resolvable(cache, files, b)
  {
    var e := Effective(cache, files, b.kind);
    var lvl := IntToString(b.level);
    if e.maxCount == Some(1) then [Shared(b.kind, lvl)]
    else
      var ps := b.positions.value;
      seq(|ps|, j requires 0 <= j < |ps| => Own(Placed(e.levels[lvl], lvl, b.kind, ps[j], e.size)))
  }

  function ExpandAll(cache: map<string, EntryData>, files: map<string, EntryData>, bs: seq<RawBuilding>): seq<Handle>
    requires AllResolvable(cache, files, bs)
    decreases |bs|
  {
    if bs == [] then []
    else ExpandAll(cache, files, bs[..|bs| - 1]) + Expand(cache, files, bs[|bs| - 1])
  }

  /** How many structures a building yields. */
  function Yield(cache: map<string, EntryData>, files: map<string, EntryData>, b: RawBuilding): nat
    requires Resolvable(cache, files, b)
  {
    if Effective(cache, files, b.kind).maxCount == Some(1) then 1 else |b.positions.value|
  }

  function TotalYield(cache: map<string, EntryData>, files: map<string, EntryData>, bs: seq<RawBuilding>): nat
    requires AllResolvable(cache, files, bs)
    decreases |bs|
  {
    if bs == [] then 0
    else TotalYield(cache, files, bs[..|bs| - 1]) + Yield(cache, files, bs[|bs| - 1])
  }

  /** The last building of `bs` placed at kind k and level text l. */
  function LastPlacement(bs: seq<RawBuilding>, k: string, l: string): Option<RawBuilding>
    decreases |bs|
  {
    if bs == [] then None
    else if bs[|bs| - 1].kind == k && IntToString(bs[|bs| - 1].level) == l then Some(bs[|bs| - 1])
    else LastPlacement(bs[..|bs| - 1], k, l)
  }

  /** Reference definition of a cached record after the run: a single-instance
      kind's record carries the fields written by the last building placed at
      it; every other record is as it was. */
  function FinalRecord(cache: map<string, EntryData>, files: map<string, EntryData>,
                       bs: seq<RawBuilding>, k: string, l: string): RecordValue
    requires k in cache || k in files
    requires l in Effective(cache, files, k).levels
  {
    var e := Effective(cache, files, k);
    match LastPlacement(bs, k, l)
    case Some(b) =>
      if e.maxCount == Some(1) then Placed(e.levels[l], l, k, [b.x, b.y], e.size) else e.levels[l]
    case None => e.levels[l]
  }

  /** The cache gains exactly the kinds met. */
  lemma {:induction false} ResolveKeys(cache: map<string, EntryData>, files: map<string, EntryData>, bs: seq<RawBuilding>)
    requires AllResolvable(cache, files, bs)
    ensures forall k :: k in Resolve(cache, files, bs).cache <==> k in cache || k in Kinds(bs)
    decreases |bs|
  {
    if bs != [] {
      var init := bs[..|bs| - 1];
      var b := bs[|bs| - 1];
      assert Kinds(bs) == Kinds(init) + {b.kind} by {
        assert forall i :: 0 <= i < |init| ==> init[i] == bs[i];
      }
      assert AllResolvable(cache, files, init);
      ResolveKeys(cache, files, init);
      var s := Resolve(cache, files, init);
      assert Resolvable(s.cache, files, b) by {
        assert Resolvable(cache, files, b);
      }
      StepShape(s.cache, files, b);
    }
  }

  lemma {:induction false} LastPlacementOfUnseen(bs: seq<RawBuilding>, k: string, l: string)
    requires k !in Kinds(bs)
    ensures LastPlacement(bs, k, l) == None
    decreases |bs|
  {
    if bs != [] {
      var init := bs[..|bs| - 1];
      assert Kinds(init) <= Kinds(bs) by {
        assert forall i :: 0 <= i < |init| ==> init[i] == bs[i];
      }
      assert bs[|bs| - 1].kind in Kinds(bs);
      LastPlacementOfUnseen(init, k, l);
    }
  }

  lemma StepCache(cache: map<string, EntryData>, files: map<string, EntryData>, b: RawBuilding, k: string, l: string)
    requires Resolvable(cache, files, b)
    requires k in cache || k == b.kind
    requires l in Effective(cache, files, k).levels
    ensures k in Step(cache, files, b).cache && l in Step(cache, files, b).cache[k].levels
    ensures Step(cache, files, b).cache[k].levels[l] ==
              var e := Effective(cache, files, k);
              if b.kind == k && IntToString(b.level) == l && e.maxCount == Some(1)
              then Placed(e.levels[l], l, k, [b.x, b.y], e.size)
              else e.levels[l]
  {
  }

  lemma FinalRecordStep(cache: map<string, EntryData>, files: map<string, EntryData>,
                        bs: seq<RawBuilding>, k: string, l: string)
    requires bs != []
    requires k in cache || k in files
    requires l in Effective(cache, files, k).levels
    ensures var b, e := bs[|bs| - 1], Effective(cache, files, k);
            FinalRecord(cache, files, bs, k, l) ==
              if b.kind == k && IntToString(b.level) == l && e.maxCount == Some(1)
              then Placed(FinalRecord(cache, files, bs[..|bs| - 1], k, l), l, k, [b.x, b.y], e.size)
              else FinalRecord(cache, files, bs[..|bs| - 1], k, l)
  {
  }

  /** Every cached record after the run is its reference value: the cache
      gains entries, a multi-instance kind's records are never written (the
      resolver deep-copies them), and a single-instance kind's record is
      written in place by every building placed at it, the last one winning. */
  lemma {:induction false} ResolveCache(cache: map<string, EntryData>, files: map<string, EntryData>,
                                        bs: seq<RawBuilding>, k: string, l: string)
    requires AllResolvable(cache, files, bs)
    requires k in Resolve(cache, files, bs).cache
    requires l in Effective(cache, files, k).levels
    ensures l in Resolve(cache, files, bs).cache[k].levels
    ensures Resolve(cache, files, bs).cache[k].levels[l] == FinalRecord(cache, files, bs, k, l)
    decreases |bs|
  {
    if bs != [] {
      var init := bs[..|bs| - 1];
      var b := bs[|bs| - 1];
      assert AllResolvable(cache, files, init);
      var s := Resolve(cache, files, init);
      assert Resolvable(s.cache, files, b) by {
        assert Resolvable(cache, files, b);
      }
      var before := Effective(s.cache, files, k);
      assert SameShape(before, Effective(cache, files, k));
      assert before.levels[l] == FinalRecord(cache, files, init, k, l) by {
        if k in s.cache {
          ResolveCache(cache, files, init, k, l);
        } else {
          ResolveKeys(cache, files, init);
          assert k !in Kinds(init);
          LastPlacementOfUnseen(init, k, l);
        }
      }
      StepCache(s.cache, files, b, k, l);
      FinalRecordStep(cache, files, bs, k, l);
    }
  }

  /** The structures the resolver appends are, in order, those of the
      reference expansion: input order, then positions order. */
  lemma {:induction false} ResolveHandles(cache: map<string, EntryData>, files: map<string, EntryData>, bs: seq<RawBuilding>)
    requires AllResolvable(cache, files, bs)
    ensures Resolve(cache, files, bs).handles == ExpandAll(cache, files, bs)
    decreases |bs|
  {
    if bs != [] {
      var init := bs[..|bs| - 1];
      var b := bs[|bs| - 1];
      assert AllResolvable(cache, files, init);
      ResolveHandles(cache, files, init);
      var s := Resolve(cache, files, init);
      var e := Effective(cache, files, b.kind);
      var lvl := IntToString(b.level);
      if b.kind in s.cache && e.maxCount != Some(1) && ReadsRecord(e, b) {
        ResolveCache(cache, files, init, b.kind, lvl);
        assert s.cache[b.kind].levels[lvl] == e.levels[lvl];
      }
    }
  }

  /** One structure per single-instance building plus one per position of
      each multi-instance building. */
  lemma {:induction false} ExpandAllLength(cache: map<string, EntryData>, files: map<string, EntryData>, bs: seq<RawBuilding>)
    requires AllResolvable(cache, files, bs)
    ensures |ExpandAll(cache, files, bs)| == TotalYield(cache, files, bs)
    decreases |bs|
  {
    if bs != [] {
      assert AllResolvable(cache, files, bs[..|bs| - 1]);
      ExpandAllLength(cache, files, bs[..|bs| - 1]);
    }
  }

  /** Single-instance buildings of one kind and level resolve to the same
      cached record, and that record ends written with the kind, the level
      text, the catalog size and the position of the last of them: earlier
      placements are overwritten. */
  lemma SingletonsAlias(cache: map<string, EntryData>, files: map<string, EntryData>,
                        bs: seq<RawBuilding>, i: nat, j: nat)
    requires AllResolvable(cache, files, bs)
    requires i <= j < |bs|
    requires bs[i].kind == bs[j].kind && bs[i].level == bs[j].level
    requires Effective(cache, files, bs[j].kind).maxCount == Some(1)
    requires forall n :: j < n < |bs| ==> bs[n].kind != bs[j].kind || bs[n].level != bs[j].level
    ensures Expand(cache, files, bs[i]) == Expand(cache, files, bs[j]) == [Shared(bs[j].kind, IntToString(bs[j].level))]
    ensures var e, l := Effective(cache, files, bs[j].kind), IntToString(bs[j].level);
            FinalRecord(cache, files, bs, bs[j].kind, l) == Placed(e.levels[l], l, bs[j].kind, [bs[j].x, bs[j].y], e.size)
  {
    assert Resolvable(cache, files, bs[i]) && Resolvable(cache, files, bs[j]);
    LastPlacementAt(bs, j);
  }

  lemma {:induction false} LastPlacementAt(bs: seq<RawBuilding>, j: nat)
    requires j < |bs|
    requires forall n :: j < n < |bs| ==> bs[n].kind != bs[j].kind || bs[n].level != bs[j].level
    ensures LastPlacement(bs, bs[j].kind, IntToString(bs[j].level)) == Some(bs[j])
    decreases |bs|
  {
    var last := bs[|bs| - 1];
    if j < |bs| - 1 {
      if last.kind == bs[j].kind && IntToString(last.level) == IntToString(bs[j].level) {
        IntToStringInjective(last.level, bs[j].level);
      }
      var init := bs[..|bs| - 1];
      assert init[j] == bs[j];
      LastPlacementAt(init, j);
    }
  }

  /** A structure object stands for a handle: a shared handle by the very
      record object the cache holds at that kind and level, an own handle by
      an object with that content. */
  ghost predicate Realizes(entries: map<string, Entry>, r: Record, h: Handle)
    reads r
  {
    match h
    case Shared(k, l) => k in entries && l in entries[k].levels && r == entries[k].levels[l]
    case Own(v) => r.Value() == v
  }

  /** Each structure stands for the handle at the same index. */
  ghost predicate RealizesAll(entries: map<string, Entry>, rs: seq<Record>, hs: seq<Handle>)
    reads rs
  {
    |rs| == |hs| && forall m :: 0 <= m < |rs| ==> Realizes(entries, rs[m], hs[m])
  }

  /** No structure standing for an own handle is a record of the cache. */
  ghost predicate OwnOutside(entries: map<string, Entry>, rs: seq<Record>, hs: seq<Handle>)
    requires |rs| == |hs|
  {
    forall m :: 0 <= m < |rs| ==> hs[m].Own? ==> rs[m] !in RecordsOf(entries)
  }

  lemma RealizesAppend(entries: map<string, Entry>,
                       rs1: seq<Record>, hs1: seq<Handle>, rs2: seq<Record>, hs2: seq<Handle>)
    requires RealizesAll(entries, rs1, hs1) && RealizesAll(entries, rs2, hs2)
    requires OwnOutside(entries, rs1, hs1) && OwnOutside(entries, rs2, hs2)
    ensures RealizesAll(entries, rs1 + rs2, hs1 + hs2) && OwnOutside(entries, rs1 + rs2, hs1 + hs2)
  {
    forall m | 0 <= m < |rs1 + rs2|
      ensures Realizes(entries, (rs1 + rs2)[m], (hs1 + hs2)[m])
      ensures (hs1 + hs2)[m].Own? ==> (rs1 + rs2)[m] !in RecordsOf(entries)
    {
      if m >= |rs1| {
        assert (rs1 + rs2)[m] == rs2[m - |rs1|] && (hs1 + hs2)[m] == hs2[m - |rs1|];
      }
    }
  }

  /** A cache that only gains entries keeps every shared handle realised. */
  lemma RealizesExtend(e1: map<string, Entry>, e2: map<string, Entry>, rs: seq<Record>, hs: seq<Handle>)
    requires forall k :: k in e1 ==> k in e2 && e2[k] == e1[k]
    requires RealizesAll(e1, rs, hs)
    ensures RealizesAll(e2, rs, hs)
  {
    forall m | 0 <= m < |rs| ensures Realizes(e2, rs[m], hs[m]) {
      assert Realizes(e1, rs[m], hs[m]);
    }
  }

  /** No two structures standing for own handles are one object. */
  ghost predicate CopiesDistinct(rs: seq<Record>, hs: seq<Handle>)
    requires |rs| == |hs|
  {
    forall a, b :: 0 <= a < |rs| && 0 <= b < |rs| && a != b && hs[a].Own? && hs[b].Own? ==> rs[a] != rs[b]
  }

  lemma CopiesDistinctAppend(rs1: seq<Record>, hs1: seq<Handle>, rs2: seq<Record>, hs2: seq<Handle>)
    requires |rs1| == |hs1| && |rs2| == |hs2|
    requires CopiesDistinct(rs1, hs1) && CopiesDistinct(rs2, hs2)
    requires forall a, b :: 0 <= a < |rs1| && 0 <= b < |rs2| && hs1[a].Own? && hs2[b].Own? ==> rs1[a] != rs2[b]
    ensures CopiesDistinct(rs1 + rs2, hs1 + hs2)
  {
    var rs, hs := rs1 + rs2, hs1 + hs2;
    forall a, b | 0 <= a < |rs| && 0 <= b < |rs| && a != b && hs[a].Own? && hs[b].Own? ensures rs[a] != rs[b] {
      if a >= |rs1| {
        assert rs[a] == rs2[a - |rs1|] && hs[a] == hs2[a - |rs1|];
      }
      if b >= |rs1| {
        assert rs[b] == rs2[b - |rs1|] && hs[b] == hs2[b - |rs1|];
      }
    }
  }

  /** The model state `st` describes the cache and the structure list: the
      cache is injective and holds `st.cache`, and the structures stand for
      `st.handles`, the copies being distinct objects outside the cache. */
  ghost predicate Tracks(entries: map<string, Entry>, structures: seq<Record>, st: State)
    reads RecordsOf(entries), structures
  {
    && Injective(entries)
    && Data(entries) == st.cache
    && RealizesAll(entries, structures, st.handles)
    && OwnOutside(entries, structures, st.handles)
    && CopiesDistinct(structures, st.handles)
  }

  /** The source's cache miss: the document of `kind` is loaded into new
      record objects and cached, unless the kind is cached already. */
  method LoadKind(cache: BuildingCache, files: map<string, EntryData>, kind: string)
    requires cache.Valid() && (kind in cache.entries || kind in files)
    modifies cache
    ensures cache.Valid()
    ensures forall k :: k in old(cache.entries) ==> k in cache.entries && cache.entries[k] == old(cache.entries[k])
    ensures forall k :: k in cache.entries <==> k in old(cache.entries) || k == kind
    ensures forall r :: r in RecordsOf(cache.entries) ==> r in old(RecordsOf(cache.entries)) || fresh(r)
    ensures Data(cache.entries) == Loaded(old(Data(cache.entries)), files, kind)
  {
    if kind !in cache.entries {
      var e := LoadDocument(files[kind]);
      assert forall l :: l in e.levels ==> e.levels[l] !in RecordsOf(cache.entries);
      InjectiveInsert(cache.entries, kind, e);
      DataInsert(cache.entries, kind, e);
      assert Data(cache.entries) == old(Data(cache.entries)) by {
        assert unchanged(RecordsOf(cache.entries));
      }
      label Insert:
      cache.entries := cache.entries[kind := e];
      assert unchanged@Insert(RecordsOf(cache.entries));
    }
  }

  /** The source's single-instance branch: the cached record itself is
      written with the building's level, kind, position and the catalog
      size; only that slot of the cache changes. */
  method PlaceShared(cache: BuildingCache, kind: string, lvl: string, p: Position) returns (rec: Record)
    requires cache.Valid() && kind in cache.entries && lvl in cache.entries[kind].levels
    modifies cache.entries[kind].levels[lvl]
    ensures rec == cache.entries[kind].levels[lvl]
    ensures Data(cache.entries) == WriteSlot(old(Data(cache.entries)), kind, lvl,
              Placed(old(rec.Value()), lvl, kind, p, cache.entries[kind].size))
  {
    rec := cache.entries[kind].levels[lvl];
    rec.Place(lvl, kind, p, cache.entries[kind].size);
    forall k | k in cache.entries && k != kind
      ensures EntryValue(cache.entries[k]) == old(EntryValue(cache.entries[k]))
    {
      assert forall l :: l in cache.entries[k].levels ==> cache.entries[k].levels[l] != rec;
      assert unchanged(LevelRecords(cache.entries[k]));
    }
    ghost var e := cache.entries[kind];
    forall l | l in e.levels && l != lvl ensures e.levels[l].Value() == old(e.levels[l].Value()) {
      assert e.levels[l] != rec;
    }
    assert EntryValue(e) == old(EntryValue(e)).(levels := old(EntryValue(e)).levels[lvl := rec.Value()]);
  }

  /** The source's inner loop: one deep copy of `rec` per position, each
      written with the building's level, kind, that position and the
      catalog size. */
  method PlaceCopies(e: Entry, lvl: string, kind: string, ps: seq<Position>)
    returns (copies: seq<Record>)
    requires ps != [] ==> lvl in e.levels
    ensures |copies| == |ps|
    ensures forall j :: 0 <= j < |ps| ==>
              fresh(copies[j]) && copies[j].Value() == Placed(e.levels[lvl].Value(), lvl, kind, ps[j], e.size)
    ensures forall a, b :: 0 <= a < b < |copies| ==> copies[a] != copies[b]
  {
    copies := [];
    for j := 0 to |ps|
      invariant |copies| == j
      invariant forall n :: 0 <= n < j ==>
                  fresh(copies[n]) && copies[n].Value() == Placed(e.levels[lvl].Value(), lvl, kind, ps[n], e.size)
      invariant forall a, b :: 0 <= a < b < j ==> copies[a] != copies[b]
    {
      var copy := e.levels[lvl].Copy();
      copy.Place(lvl, kind, ps[j], e.size);
      copies := copies + [copy];
    }
  }

  /** The structures for `b` once its kind is cached, with the cache's
      contents going from `c` to `Emit(c, b)`'s; the structures `rs` built
      before stay realised. */
  method EmitBuilding(b: RawBuilding, cache: BuildingCache, ghost c: map<string, EntryData>,
                      ghost rs: seq<Record>, ghost hs: seq<Handle>)
    returns (added: seq<Record>)
    requires cache.Valid() && Data(cache.entries) == c && Emittable(c, b)
    requires RealizesAll(cache.entries, rs, hs) && OwnOutside(cache.entries, rs, hs)
    modifies RecordsOf(cache.entries)
    ensures Data(cache.entries) == Emit(c, b).cache
    ensures RealizesAll(cache.entries, rs, hs)
    ensures RealizesAll(cache.entries, added, Emit(c, b).handles) && OwnOutside(cache.entries, added, Emit(c, b).handles)
    ensures forall m :: 0 <= m < |added| ==> Emit(c, b).handles[m].Own? ==> fresh(added[m])
    ensures CopiesDistinct(added, Emit(c, b).handles)
  {
    var lvl := IntToString(b.level);
    var e := cache.entries[b.kind];
    assert EntryValue(e) == c[b.kind];
    assert ReadsRecord(c[b.kind], b) ==> e.levels[lvl].Value() == c[b.kind].levels[lvl];
    if e.maxCount == Some(1) {
      var rec := PlaceShared(cache, b.kind, lvl, [b.x, b.y]);
      added := [rec];
      forall m | 0 <= m < |rs| ensures Realizes(cache.entries, rs[m], hs[m]) {
        if hs[m].Own? {
          assert unchanged(rs[m]);
        }
      }
    } else {
      added := PlaceCopies(e, lvl, b.kind, b.positions.value);
      assert unchanged(rs);
      assert Data(cache.entries) == c by {
        assert unchanged(RecordsOf(cache.entries));
      }
    }
  }

  /** One pass of the source's loop body: `b`'s kind loaded if need be, its
      structures appended to `structures`, and the model state advanced by
      `Step`. */
  method ResolveNext(b: RawBuilding, cache: BuildingCache, files: map<string, EntryData>,
                     ghost s: State, structures: seq<Record>)
    returns (out: seq<Record>, ghost next: State)
    requires Tracks(cache.entries, structures, s) && Resolvable(s.cache, files, b)
    modifies cache, RecordsOf(cache.entries)
    ensures next == State(Step(s.cache, files, b).cache, s.handles + Step(s.cache, files, b).handles)
    ensures Tracks(cache.entries, out, next)
    ensures forall k :: k in old(cache.entries) ==> k in cache.entries && cache.entries[k] == old(cache.entries[k])
    ensures forall k :: k in cache.entries <==> k in old(cache.entries) || k == b.kind
    ensures forall r :: r in RecordsOf(cache.entries) ==> r in old(RecordsOf(cache.entries)) || fresh(r)
    ensures |structures| <= |out| && out[..|structures|] == structures
    ensures forall m :: |structures| <= m < |out| ==> next.handles[m].Own? ==> fresh(out[m])
  {
    LoadKind(cache, files, b.kind);
    RealizesExtend(old(cache.entries), cache.entries, structures, s.handles);
    forall m | 0 <= m < |structures| && s.handles[m].Own? ensures structures[m] !in RecordsOf(cache.entries) {
      assert structures[m] !in RecordsOf(old(cache.entries));
    }
    out := EmitAppend(b, cache, Loaded(s.cache, files, b.kind), structures, s.handles);
    ghost var t := Step(s.cache, files, b);
    next := State(t.cache, s.handles + t.handles);
  }

  /** The structures for `b` appended to `structures`, which stand for `hs`,
      once `b`'s kind is cached with contents `c`. */
  method EmitAppend(b: RawBuilding, cache: BuildingCache, ghost c: map<string, EntryData>,
                    structures: seq<Record>, ghost hs: seq<Handle>)
    returns (out: seq<Record>)
    requires cache.Valid() && Data(cache.entries) == c && Emittable(c, b)
    requires RealizesAll(cache.entries, structures, hs) && OwnOutside(cache.entries, structures, hs)
    requires CopiesDistinct(structures, hs)
    modifies RecordsOf(cache.entries)
    ensures Data(cache.entries) == Emit(c, b).cache
    ensures RealizesAll(cache.entries, out, hs + Emit(c, b).handles)
    ensures OwnOutside(cache.entries, out, hs + Emit(c, b).handles)
    ensures CopiesDistinct(out, hs + Emit(c, b).handles)
    ensures |structures| <= |out| && out[..|structures|] == structures
    ensures forall m :: |structures| <= m < |out| ==> (hs + Emit(c, b).handles)[m].Own? ==> fresh(out[m])
  {
    var added := EmitBuilding(b, cache, c, structures, hs);
    ghost var t := Emit(c, b);
    RealizesAppend(cache.entries, structures, hs, added, t.handles);
    CopiesDistinctAppend(structures, hs, added, t.handles);
    out := structures + added;
    ghost var n := |structures|;
    forall m | n <= m < |out| && (hs + t.handles)[m].Own? ensures fresh(out[m]) {
      assert out[m] == added[m - n] && (hs + t.handles)[m] == t.handles[m - n];
    }
  }

  lemma ResolvePrefix(cache: map<string, EntryData>, files: map<string, EntryData>, bs: seq<RawBuilding>, i: nat)
    requires AllResolvable(cache, files, bs) && i < |bs|
    ensures AllResolvable(cache, files, bs[..i]) && AllResolvable(cache, files, bs[..i + 1])
    ensures Resolvable(Resolve(cache, files, bs[..i]).cache, files, bs[i])
    ensures var s := Resolve(cache, files, bs[..i]);
            Resolve(cache, files, bs[..i + 1]) ==
              State(Step(s.cache, files, bs[i]).cache, s.handles + Step(s.cache, files, bs[i]).handles)
  {
    PrefixResolvable(cache, files, bs, i);
    PrefixResolvable(cache, files, bs, i + 1);
    var p, q := bs[..i], bs[..i + 1];
    assert q[..|q| - 1] == p && q[|q| - 1] == bs[i];
    assert Resolvable(cache, files, bs[i]);
  }

  lemma PrefixResolvable(cache: map<string, EntryData>, files: map<string, EntryData>, bs: seq<RawBuilding>, i: nat)
    requires AllResolvable(cache, files, bs) && i <= |bs|
    ensures AllResolvable(cache, files, bs[..i])
  {
    forall j | 0 <= j < i ensures Resolvable(cache, files, bs[..i][j]) {
      assert bs[..i][j] == bs[j];
    }
  }

  /** `generate_sctructure_list`: the structures for `buildings`, loading a
      kind's document from `files` into the cache the first time the kind is
      met. The cache ends holding what `Resolve` computes, and the structures
      are, one by one, the handles `Resolve` computes: the cache's own
      records for a single-instance kind, new copies otherwise. */
  method GenerateStructureList(buildings: seq<RawBuilding>, cache: BuildingCache, files: map<string, EntryData>)
    returns (structures: seq<Record>)
    requires cache.Valid() && AllResolvable(Data(cache.entries), files, buildings)
    modifies cache, RecordsOf(cache.entries)
    ensures cache.Valid()
    ensures forall k :: k in old(cache.entries) ==> k in cache.entries && cache.entries[k] == old(cache.entries[k])
    ensures forall r :: r in RecordsOf(cache.entries) ==> r in old(RecordsOf(cache.entries)) || fresh(r)
    ensures Data(cache.entries) == Resolve(old(Data(cache.entries)), files, buildings).cache
    ensures RealizesAll(cache.entries, structures, Resolve(old(Data(cache.entries)), files, buildings).handles)
    ensures OwnOutside(cache.entries, structures, Resolve(old(Data(cache.entries)), files, buildings).handles)
    ensures CopiesDistinct(structures, Resolve(old(Data(cache.entries)), files, buildings).handles)
    ensures forall m :: 0 <= m < |structures| ==> Resolve(old(Data(cache.entries)), files, buildings).handles[m].Own? ==> fresh(structures[m])
  {
    ghost var D0 := Data(cache.entries);
    ghost var R := State(D0, []);
    structures := [];
    for i := 0 to |buildings|
      invariant forall k :: k in old(cache.entries) ==> k in cache.entries && cache.entries[k] == old(cache.entries[k])
      invariant forall r :: r in RecordsOf(cache.entries) ==> r in old(RecordsOf(cache.entries)) || fresh(r)
      invariant AllResolvable(D0, files, buildings[..i]) && R == Resolve(D0, files, buildings[..i])
      invariant Tracks(cache.entries, structures, R)
      invariant forall m :: 0 <= m < |structures| ==> R.handles[m].Own? ==> fresh(structures[m])
    {
      ResolvePrefix(D0, files, buildings, i);
      ghost var before, R0 := structures, R;
      structures, R := ResolveNext(buildings[i], cache, files, R, structures);
      forall m | 0 <= m < |structures| && R.handles[m].Own? ensures fresh(structures[m]) {
        if m < |before| {
          assert structures[m] == before[m] && R.handles[m] == R0.handles[m];
        }
      }
    }
    assert buildings[..|buildings|] == buildings;
  }
}
