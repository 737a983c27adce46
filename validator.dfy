/** The village validator: the resolved structures checked against the
    capacity tables of the townhall's level record (ceilings) and, when the
    townhall is above level 1, against the previous level's count tables
    (floors). It only reads the structures and the cache. */
module Validator {
  import opened Dicts
  import opened Levels
  import opened Catalog

  const TOWNHALL := "townhall"

  /** A structure's kind as the validator groups it: `building.get("type")`,
      which is `None` for a structure without a type. */
  type Kind = Option<string>

  /** One constructor per warning the validator records, carrying the kind
      it is about. */
  datatype Warning =
    | NotInTownhall(kind: Kind)   // "Building {k} not found in townhall"
    | CountNotFound(kind: Kind)   // "Building {k} count not found"
    | TooMany(kind: Kind)         // "Building {k} count is more than allowed"
    | LevelNotFound(kind: Kind)   // "Building {k} level not found"
    | LevelTooHigh(kind: Kind)    // "Building {k} level is more than allowed"
    | Missing(name: string)       // "Building {k} not found"
    | TooFew(name: string)        // "Building {k} count is less than required"

  predicate IsCeiling(w: Warning) {
    w.NotInTownhall? || w.CountNotFound? || w.TooMany? || w.LevelNotFound? || w.LevelTooHigh?
  }

  predicate IsFloor(w: Warning) {
    w.Missing? || w.TooFew?
  }

  /** How a kind is printed inside a warning (a missing type prints as None). */
  function Name(k: Kind): string {
    match k
    case None => "None"
    case Some(s) => s
  }

  /** The printed text of a warning. */
  function Message(w: Warning): string {
    match w
    case NotInTownhall(k) => "Building " + Name(k) + " not found in townhall"
    case CountNotFound(k) => "Building " + Name(k) + " count not found"
    case TooMany(k) => "Building " + Name(k) + " count is more than allowed"
    case LevelNotFound(k) => "Building " + Name(k) + " level not found"
    case LevelTooHigh(k) => "Building " + Name(k) + " level is more than allowed"
    case Missing(n) => "Building " + n + " not found"
    case TooFew(n) => "Building " + n + " count is less than required"
  }

  /** The validator's result: the boolean it returns and the warnings it
      has printed, in order. */
  datatype Verdict = Verdict(valid: bool, warnings: seq<Warning>)

  /** Two runs of checks one after the other. */
  function Conj(a: Verdict, b: Verdict): Verdict {
    Verdict(a.valid && b.valid, a.warnings + b.warnings)
  }

  // ---------------------------------------------------------------------
  // The first pass

  /** `int(building.get("level"))` does not raise. */
  predicate HasLevel(b: RecordValue) {
    b.level.Some? && IsDecimal(b.level.value)
  }

  function LevelOf(b: RecordValue): int
    requires HasLevel(b)
  {
    ParseInt(b.level.value)
  }

  predicate AllLevels(bs: seq<RecordValue>) {
    forall i :: 0 <= i < |bs| ==> HasLevel(bs[i])
  }

  /** A townhall whose level makes the first pass select a previous level
      record. */
  predicate RaisesFloor(cache: map<string, EntryData>, b: RecordValue)
    requires HasLevel(b)
  {
    b.kind == Some(TOWNHALL) && TOWNHALL in cache && LevelOf(b) > 1
  }

  /** What the first pass needs of a structure not to raise: a decimal
      level and, for a floor-raising townhall, a record for the level
      below. */
  predicate Scannable(cache: map<string, EntryData>, b: RecordValue) {
    HasLevel(b) && (RaisesFloor(cache, b) ==> IntToString(LevelOf(b) - 1) in cache[TOWNHALL].levels)
  }

  predicate AllScannable(cache: map<string, EntryData>, bs: seq<RecordValue>) {
    forall i :: 0 <= i < |bs| ==> Scannable(cache, bs[i])
  }

  /** `building_cache['townhall'][str(level - 1)]` for a floor-raising
      townhall. */
  function PreviousRecord(cache: map<string, EntryData>, b: RecordValue): RecordValue
    requires Scannable(cache, b) && RaisesFloor(cache, b)
  {
    cache[TOWNHALL].levels[IntToString(LevelOf(b) - 1)]
  }

  /** The first pass's `townhall`: each townhall met replaces the last. */
  function Townhall(bs: seq<RecordValue>): Option<RecordValue>
    decreases |bs|
  {
    if bs == [] then None
    else if bs[|bs| - 1].kind == Some(TOWNHALL) then Some(bs[|bs| - 1])
    else Townhall(bs[..|bs| - 1])
  }

  /** The first pass's `previous_townhall`: each floor-raising townhall
      replaces it with the cached record one level below its own. */
  function Previous(cache: map<string, EntryData>, bs: seq<RecordValue>): Option<RecordValue>
    requires AllScannable(cache, bs)
    decreases |bs|
  {
    if bs == [] then None
    else if RaisesFloor(cache, bs[|bs| - 1]) then Some(PreviousRecord(cache, bs[|bs| - 1]))
    else Previous(cache, bs[..|bs| - 1])
  }

  /** `current[k] = [l]` for a new kind, `current[k].append(l)` otherwise. */
  function AddLevel(current: Dict<Kind, seq<int>>, k: Kind, l: int): Dict<Kind, seq<int>> {
    match Get(current, k)
    case None => Set(current, k, [l])
    case Some(ls) => Set(current, k, ls + [l])
  }

  /** Every group holds at least one level. */
  predicate NonEmptyGroups(current: Dict<Kind, seq<int>>) {
    forall i :: 0 <= i < |current| ==> current[i].1 != []
  }

  lemma AddLevelNonEmpty(current: Dict<Kind, seq<int>>, k: Kind, l: int)
    requires NonEmptyGroups(current)
    ensures NonEmptyGroups(AddLevel(current, k, l))
  {
    match Get(current, k)
    case None => SetEntries(current, k, [l]);
    case Some(ls) => SetEntries(current, k, ls + [l]);
  }

  /** The first pass's `current_buildings`: each structure's level added
      to its kind's group; no group is empty. */
  function Group(bs: seq<RecordValue>): (r: Dict<Kind, seq<int>>)
    requires AllLevels(bs)
    ensures NonEmptyGroups(r)
    decreases |bs|
  {
    if bs == [] then []
    else
      var c := Group(bs[..|bs| - 1]);
      AddLevelNonEmpty(c, bs[|bs| - 1].kind, LevelOf(bs[|bs| - 1]));
      AddLevel(c, bs[|bs| - 1].kind, LevelOf(bs[|bs| - 1]))
  }

  /** Some structure of `bs` has kind k. */
  predicate Occurs(bs: seq<RecordValue>, k: Kind) {
    exists i :: 0 <= i < |bs| && bs[i].kind == k
  }

  lemma OccursSnoc(bs: seq<RecordValue>, k: Kind)
    requires bs != []
    ensures Occurs(bs, k) <==> Occurs(bs[..|bs| - 1], k) || bs[|bs| - 1].kind == k
  {
    var init := bs[..|bs| - 1];
    if Occurs(init, k) {
      var i :| 0 <= i < |init| && init[i].kind == k;
      assert bs[i].kind == k;
    }
    if Occurs(bs, k) && bs[|bs| - 1].kind != k {
      var i :| 0 <= i < |bs| && bs[i].kind == k;
      assert init[i].kind == k;
    }
  }

  /** The levels of the structures of kind k, in input order; there are
      some exactly when the kind occurs. */
  function Instances(bs: seq<RecordValue>, k: Kind): (r: seq<int>)
    requires AllLevels(bs)
    ensures r != [] <==> Occurs(bs, k)
    decreases |bs|
  {
    if bs == [] then []
    else
      OccursSnoc(bs, k);
      Instances(bs[..|bs| - 1], k) + (if bs[|bs| - 1].kind == k then [LevelOf(bs[|bs| - 1])] else [])
  }

  /** The kinds of `bs`, one per structure. */
  function KindList(bs: seq<RecordValue>): seq<Kind> {
    seq(|bs|, i requires 0 <= i < |bs| => bs[i].kind)
  }

  /** Index i holds the last townhall of `bs`. */
  predicate IsLastTownhall(bs: seq<RecordValue>, i: int) {
    0 <= i < |bs| && bs[i].kind == Some(TOWNHALL) &&
    forall j :: i < j < |bs| ==> bs[j].kind != Some(TOWNHALL)
  }

  /** Index i holds the last floor-raising townhall of `bs`. */
  predicate IsLastRaising(cache: map<string, EntryData>, bs: seq<RecordValue>, i: int)
    requires AllLevels(bs)
  {
    0 <= i < |bs| && RaisesFloor(cache, bs[i]) &&
    forall j :: i < j < |bs| ==> !RaisesFloor(cache, bs[j])
  }

  /** The townhall the validator checks against is the last one. */
  lemma {:induction false} TownhallLast(bs: seq<RecordValue>)
    ensures Townhall(bs).None? <==> !Occurs(bs, Some(TOWNHALL))
    ensures forall i :: IsLastTownhall(bs, i) ==> Townhall(bs) == Some(bs[i])
    decreases |bs|
  {
    if bs != [] {
      var init := bs[..|bs| - 1];
      TownhallLast(init);
      OccursSnoc(bs, Some(TOWNHALL));
      forall i | IsLastTownhall(bs, i) ensures Townhall(bs) == Some(bs[i]) {
        if i < |bs| - 1 {
          assert IsLastTownhall(init, i);
        }
      }
    }
  }

  /** Some structure of `bs` is a floor-raising townhall. */
  predicate AnyRaising(cache: map<string, EntryData>, bs: seq<RecordValue>)
    requires AllLevels(bs)
  {
    exists i :: 0 <= i < |bs| && RaisesFloor(cache, bs[i])
  }

  lemma AnyRaisingSnoc(cache: map<string, EntryData>, bs: seq<RecordValue>)
    requires AllLevels(bs) && bs != []
    ensures AnyRaising(cache, bs) <==> AnyRaising(cache, bs[..|bs| - 1]) || RaisesFloor(cache, bs[|bs| - 1])
  {
    var init := bs[..|bs| - 1];
    if AnyRaising(cache, init) {
      var i :| 0 <= i < |init| && RaisesFloor(cache, init[i]);
      assert bs[i] == init[i];
    }
    if AnyRaising(cache, bs) && !RaisesFloor(cache, bs[|bs| - 1]) {
      var i :| 0 <= i < |bs| && RaisesFloor(cache, bs[i]);
      assert bs[i] == init[i];
    }
  }

  /** A previous level record is selected exactly when the cache holds the
      townhall document and some townhall is above level 1; it is the record
      one level below the last such townhall, which need not be the last
      townhall. */
  lemma {:induction false} PreviousLast(cache: map<string, EntryData>, bs: seq<RecordValue>)
    requires AllScannable(cache, bs)
    ensures Previous(cache, bs).None? <==> !AnyRaising(cache, bs)
    ensures forall i :: IsLastRaising(cache, bs, i) ==> Previous(cache, bs) == Some(PreviousRecord(cache, bs[i]))
    decreases |bs|
  {
    if bs != [] {
      var init := bs[..|bs| - 1];
      PreviousLast(cache, init);
      AnyRaisingSnoc(cache, bs);
      forall i | IsLastRaising(cache, bs, i) ensures Previous(cache, bs) == Some(PreviousRecord(cache, bs[i])) {
        if i < |bs| - 1 {
          assert IsLastRaising(cache, init, i);
        }
      }
    }
  }

  /** The grouping holds each kind once, with its levels in input order;
      a kind that occurs nowhere has no group. */
  lemma {:induction false} GroupLevels(bs: seq<RecordValue>)
    requires AllLevels(bs)
    ensures Distinct(Group(bs))
    ensures forall k :: Get(Group(bs), k) == if Occurs(bs, k) then Some(Instances(bs, k)) else None
    decreases |bs|
  {
    if bs != [] {
      var init := bs[..|bs| - 1];
      var b := bs[|bs| - 1];
      var c := Group(init);
      GroupLevels(init);
      var l := LevelOf(b);
      var v := Instances(init, b.kind) + [l];
      assert Group(bs) == AddLevel(c, b.kind, l);
      assert Get(c, b.kind) == if Occurs(init, b.kind) then Some(Instances(init, b.kind)) else None;
      assert Group(bs) == Set(c, b.kind, v) by {
        if !Occurs(init, b.kind) {
          assert Instances(init, b.kind) == [];
          assert v == [l];
        }
      }
      SetDistinct(c, b.kind, v);
      forall k ensures Get(Set(c, b.kind, v), k) == if Occurs(bs, k) then Some(Instances(bs, k)) else None {
        OccursSnoc(bs, k);
        assert Instances(bs, k) == Instances(init, k) + (if b.kind == k then [l] else []);
        if k != b.kind {
          SetOther(c, b.kind, v, k);
          assert Instances(bs, k) == Instances(init, k);
          assert Get(c, k) == if Occurs(init, k) then Some(Instances(init, k)) else None;
        } else {
          assert Occurs(bs, k);
        }
      }
    }
  }

  /** The groups come in the order their kinds first occur. */
  lemma {:induction false} GroupOrder(bs: seq<RecordValue>)
    requires AllLevels(bs)
    ensures Keys(Group(bs)) == AppendNew([], KindList(bs))
    decreases |bs|
  {
    if bs != [] {
      var init := bs[..|bs| - 1];
      var b := bs[|bs| - 1];
      var c := Group(init);
      GroupOrder(init);
      assert KindList(bs) == KindList(init) + [b.kind];
      AppendNewSplit([], KindList(init), [b.kind]);
      var l := LevelOf(b);
      match Get(c, b.kind)
      case None => SetKeys(c, b.kind, [l]);
      case Some(ls) => SetKeys(c, b.kind, ls + [l]);
    }
  }

  // ---------------------------------------------------------------------
  // The ceiling checks

  /** `max(levels)` */
  function Max(levels: seq<int>): (m: int)
    requires levels != []
    ensures forall i :: 0 <= i < |levels| ==> levels[i] <= m
    ensures exists i :: 0 <= i < |levels| && levels[i] == m
    decreases |levels|
  {
    if |levels| == 1 then levels[0]
    else
      var m := Max(levels[..|levels| - 1]);
      if levels[|levels| - 1] > m then levels[|levels| - 1] else m
  }

  /** `t.get(k)` for a structure kind against a table keyed by kind names:
      a missing type is in no table. */
  function Lookup(t: Dict<string, int>, k: Kind): (r: Option<int>)
    ensures r.None? <==> k.None? || k.value !in Keys(t)
  {
    match k
    case None => None
    case Some(s) => Get(t, s)
  }

  /** The checks of one kind with instance levels `levels` against the
      combined count and level tables. */
  function KindCheck(k: Kind, levels: seq<int>, maxCount: Dict<string, int>, maxLevel: Dict<string, int>): Verdict
    requires levels != []
  {
    match Lookup(maxCount, k)
    case None =>
      if k == Some(TOWNHALL) then Verdict(true, []) else Verdict(false, [NotInTownhall(k), CountNotFound(k)])
    case Some(count) =>
      var tooMany := if |levels| > count then [TooMany(k)] else [];
      match Lookup(maxLevel, k)
      case None => Verdict(tooMany == [], tooMany + [LevelNotFound(k)])
      case Some(top) =>
        var tooHigh := if Max(levels) > top then [LevelTooHigh(k)] else [];
        Verdict(tooMany == [] && tooHigh == [], tooMany + tooHigh)
  }

  /** What the checks of one kind record. A kind the count table lacks
      draws "not found in townhall" and "count not found" and is invalid,
      the townhall being silently exempt, and nothing else is checked.
      Otherwise: "count is more than allowed" for more instances than the
      count, "level not found" for a kind the level table lacks, and "level
      is more than allowed" when some instance is above the level. */
  lemma KindCheckWarnings(k: Kind, levels: seq<int>, maxCount: Dict<string, int>, maxLevel: Dict<string, int>)
    requires levels != []
    ensures forall w :: w in KindCheck(k, levels, maxCount, maxLevel).warnings ==> IsCeiling(w) && w.kind == k
    ensures Lookup(maxCount, k).None? ==>
              KindCheck(k, levels, maxCount, maxLevel) ==
                if k == Some(TOWNHALL) then Verdict(true, []) else Verdict(false, [NotInTownhall(k), CountNotFound(k)])
    ensures TooMany(k) in KindCheck(k, levels, maxCount, maxLevel).warnings <==>
              Lookup(maxCount, k).Some? && |levels| > Lookup(maxCount, k).value
    ensures LevelNotFound(k) in KindCheck(k, levels, maxCount, maxLevel).warnings <==>
              Lookup(maxCount, k).Some? && Lookup(maxLevel, k).None?
    ensures LevelTooHigh(k) in KindCheck(k, levels, maxCount, maxLevel).warnings <==>
              Lookup(maxCount, k).Some? && Lookup(maxLevel, k).Some? &&
              exists i :: 0 <= i < |levels| && levels[i] > Lookup(maxLevel, k).value
  {
  }

  /** A kind's checks fail exactly when they record something other than
      "level not found". */
  lemma KindCheckValid(k: Kind, levels: seq<int>, maxCount: Dict<string, int>, maxLevel: Dict<string, int>)
    requires levels != []
    ensures var v := KindCheck(k, levels, maxCount, maxLevel);
            v.valid <==> forall w :: w in v.warnings ==> w.LevelNotFound?
  {
    var v := KindCheck(k, levels, maxCount, maxLevel);
    if !v.valid {
      assert !v.warnings[0].LevelNotFound?;
    }
  }

  /** The ceiling loop over the groups, in their order. */
  function Ceilings(current: Dict<Kind, seq<int>>, maxCount: Dict<string, int>, maxLevel: Dict<string, int>): Verdict
    requires NonEmptyGroups(current)
    decreases |current|
  {
    if current == [] then Verdict(true, [])
    else
      var last := current[|current| - 1];
      Conj(Ceilings(current[..|current| - 1], maxCount, maxLevel), KindCheck(last.0, last.1, maxCount, maxLevel))
  }

  /** The ceiling loop records exactly the warnings of its kinds' checks. */
  lemma {:induction false} CeilingsMembers(current: Dict<Kind, seq<int>>,
                                           maxCount: Dict<string, int>, maxLevel: Dict<string, int>, w: Warning)
    requires NonEmptyGroups(current)
    ensures w in Ceilings(current, maxCount, maxLevel).warnings <==>
              exists i :: 0 <= i < |current| && w in KindCheck(current[i].0, current[i].1, maxCount, maxLevel).warnings
    decreases |current|
  {
    if current != [] {
      var init := current[..|current| - 1];
      CeilingsMembers(init, maxCount, maxLevel, w);
      assert forall i :: 0 <= i < |init| ==> init[i] == current[i];
    }
  }

  /** The ceiling loop records ceiling warnings only. */
  lemma CeilingsKinds(current: Dict<Kind, seq<int>>, maxCount: Dict<string, int>, maxLevel: Dict<string, int>)
    requires NonEmptyGroups(current)
    ensures forall w :: w in Ceilings(current, maxCount, maxLevel).warnings ==> IsCeiling(w)
  {
    forall w | w in Ceilings(current, maxCount, maxLevel).warnings ensures IsCeiling(w) {
      CeilingsMembers(current, maxCount, maxLevel, w);
      var i :| 0 <= i < |current| && w in KindCheck(current[i].0, current[i].1, maxCount, maxLevel).warnings;
      KindCheckWarnings(current[i].0, current[i].1, maxCount, maxLevel);
    }
  }

  /** The ceiling loop fails exactly when it records something other than
      "level not found". */
  lemma {:induction false} CeilingsValid(current: Dict<Kind, seq<int>>, maxCount: Dict<string, int>, maxLevel: Dict<string, int>)
    requires NonEmptyGroups(current)
    ensures var v := Ceilings(current, maxCount, maxLevel);
            v.valid <==> forall w :: w in v.warnings ==> w.LevelNotFound?
    decreases |current|
  {
    if current != [] {
      var last := current[|current| - 1];
      CeilingsValid(current[..|current| - 1], maxCount, maxLevel);
      KindCheckValid(last.0, last.1, maxCount, maxLevel);
    }
  }

  /** In a grouping with each kind once, the ceiling warnings about a kind
      are those of that kind's checks on its group. */
  lemma CeilingsOutcome(current: Dict<Kind, seq<int>>, maxCount: Dict<string, int>, maxLevel: Dict<string, int>, w: Warning)
    requires NonEmptyGroups(current) && Distinct(current)
    requires forall k :: Get(current, k).Some? ==> Get(current, k).value != []
    ensures w in Ceilings(current, maxCount, maxLevel).warnings <==>
              IsCeiling(w) && Get(current, w.kind).Some? &&
              w in KindCheck(w.kind, Get(current, w.kind).value, maxCount, maxLevel).warnings
  {
    CeilingsMembers(current, maxCount, maxLevel, w);
    if w in Ceilings(current, maxCount, maxLevel).warnings {
      var i :| 0 <= i < |current| && w in KindCheck(current[i].0, current[i].1, maxCount, maxLevel).warnings;
      KindCheckWarnings(current[i].0, current[i].1, maxCount, maxLevel);
      GetAt(current, i);
    }
    if IsCeiling(w) && Get(current, w.kind).Some? &&
       w in KindCheck(w.kind, Get(current, w.kind).value, maxCount, maxLevel).warnings {
      KeysIndex(current, w.kind);
      var i :| 0 <= i < |current| && current[i].0 == w.kind;
      GetAt(current, i);
    }
  }

  // ---------------------------------------------------------------------
  // The floor checks

  /** The floor check of one kind name requiring `required` instances. */
  function FloorCheck(name: string, required: int, current: Dict<Kind, seq<int>>): Verdict {
    match Get(current, Some(name))
    case None => Verdict(false, [Missing(name)])
    case Some(ls) => if required > |ls| then Verdict(false, [TooFew(name)]) else Verdict(true, [])
  }

  /** The floor loop over the entries of the required-count table. */
  function Floors(minCount: Dict<string, int>, current: Dict<Kind, seq<int>>): Verdict
    decreases |minCount|
  {
    if minCount == [] then Verdict(true, [])
    else
      var last := minCount[|minCount| - 1];
      Conj(Floors(minCount[..|minCount| - 1], current), FloorCheck(last.0, last.1, current))
  }

  /** The floor loop records warnings of its entries' checks only, and
      fails exactly when it records one. */
  lemma {:induction false} FloorsMembers(minCount: Dict<string, int>, current: Dict<Kind, seq<int>>, w: Warning)
    ensures w in Floors(minCount, current).warnings <==>
              exists i :: 0 <= i < |minCount| && w in FloorCheck(minCount[i].0, minCount[i].1, current).warnings
    ensures Floors(minCount, current).valid <==> Floors(minCount, current).warnings == []
    decreases |minCount|
  {
    if minCount != [] {
      var init := minCount[..|minCount| - 1];
      FloorsMembers(init, current, w);
      assert forall i :: 0 <= i < |init| ==> init[i] == minCount[i];
    }
  }

  /** The floor loop fails exactly when it records something other than
      "level not found", which it never records. */
  lemma FloorsValid(minCount: Dict<string, int>, current: Dict<Kind, seq<int>>)
    ensures var v := Floors(minCount, current);
            v.valid <==> forall w :: w in v.warnings ==> w.LevelNotFound?
  {
    var v := Floors(minCount, current);
    FloorsMembers(minCount, current, TooFew(""));
    if v.warnings != [] {
      FloorsMembers(minCount, current, v.warnings[0]);
    }
  }

  /** In a required-count table with each kind once: "not found" for a
      required kind the village lacks, "count is less than required" for
      one it has fewer of than required, nothing else. */
  lemma FloorsOutcome(minCount: Dict<string, int>, current: Dict<Kind, seq<int>>, w: Warning)
    requires Distinct(minCount)
    ensures w in Floors(minCount, current).warnings ==> IsFloor(w)
    ensures w.Missing? ==>
              (w in Floors(minCount, current).warnings <==>
                 w.name in Keys(minCount) && Get(current, Some(w.name)).None?)
    ensures w.TooFew? ==>
              (w in Floors(minCount, current).warnings <==>
                 Get(current, Some(w.name)).Some? && GetOr(minCount, w.name, 0) > |Get(current, Some(w.name)).value|)
  {
    FloorsMembers(minCount, current, w);
    if w in Floors(minCount, current).warnings {
      var i :| 0 <= i < |minCount| && w in FloorCheck(minCount[i].0, minCount[i].1, current).warnings;
      GetAt(minCount, i);
      KeysAt(minCount, i);
    }
    if w.Missing? || w.TooFew? {
      if w.name in Keys(minCount) {
        KeysIndex(minCount, w.name);
        var i :| 0 <= i < |minCount| && minCount[i].0 == w.name;
        GetAt(minCount, i);
      }
    }
  }

  // ---------------------------------------------------------------------
  // The whole validator

  /** The combined tables of a townhall level record. */
  function MaxCounts(th: RecordValue): Dict<string, int>
    requires th.capacity.Some?
  {
    Combine(CountTables(th.capacity.value))
  }

  function MaxLevels(th: RecordValue): Dict<string, int>
    requires th.capacity.Some?
  {
    Combine(LevelTables(th.capacity.value))
  }

  /** What the validator needs not to raise: every structure passes the
      first pass, and the townhall and previous level records it selects
      carry their capacity tables. */
  predicate Checkable(cache: map<string, EntryData>, bs: seq<RecordValue>) {
    && AllScannable(cache, bs)
    && (Townhall(bs).Some? ==> Townhall(bs).value.capacity.Some?)
    && (Townhall(bs).Some? && Previous(cache, bs).Some? ==> Previous(cache, bs).value.capacity.Some?)
  }

  /** `validate_village`: no townhall is invalid with no warnings; otherwise
      the ceiling checks of every kind met, then, when a previous level
      record was selected, the floor checks of its summed count tables. */
  function Validate(cache: map<string, EntryData>, bs: seq<RecordValue>): Verdict
    requires Checkable(cache, bs)
  {
    var th := Townhall(bs);
    if th.None? then Verdict(false, [])
    else
      var current := Group(bs);
      var ceilings := Ceilings(current, MaxCounts(th.value), MaxLevels(th.value));
      var prev := Previous(cache, bs);
      if prev.None? then ceilings
      else Conj(ceilings, Floors(MaxCounts(prev.value), current))
  }

  /** Without a townhall the village is invalid and nothing is recorded. */
  lemma NoTownhallInvalid(cache: map<string, EntryData>, bs: seq<RecordValue>)
    requires Checkable(cache, bs) && !Occurs(bs, Some(TOWNHALL))
    ensures Validate(cache, bs) == Verdict(false, [])
  {
    TownhallLast(bs);
  }

  /** With a townhall, the village is valid exactly when every warning
      recorded is a "level not found" one. */
  lemma ValidIffOnlyLevelNotFound(cache: map<string, EntryData>, bs: seq<RecordValue>)
    requires Checkable(cache, bs) && Occurs(bs, Some(TOWNHALL))
    ensures Validate(cache, bs).valid <==> forall w :: w in Validate(cache, bs).warnings ==> w.LevelNotFound?
  {
    TownhallLast(bs);
    var th := Townhall(bs).value;
    CeilingsValid(Group(bs), MaxCounts(th), MaxLevels(th));
    var prev := Previous(cache, bs);
    if prev.Some? {
      FloorsValid(MaxCounts(prev.value), Group(bs));
    }
  }

  /** Floor warnings are recorded only when a previous level record applies:
      the cache holds the townhall document and some townhall is above
      level 1. */
  lemma FloorOnlyWithPrevious(cache: map<string, EntryData>, bs: seq<RecordValue>)
    requires Checkable(cache, bs) && !AnyRaising(cache, bs)
    ensures forall w :: w in Validate(cache, bs).warnings ==> IsCeiling(w)
  {
    PreviousLast(cache, bs);
    var th := Townhall(bs);
    if th.Some? {
      CeilingsKinds(Group(bs), MaxCounts(th.value), MaxLevels(th.value));
    }
  }

  /** With a townhall, a warning is recorded exactly when the ceiling loop
      or, with a previous level record, the floor loop records it. */
  lemma ValidateWarnings(cache: map<string, EntryData>, bs: seq<RecordValue>, w: Warning)
    requires Checkable(cache, bs) && Townhall(bs).Some?
    ensures w in Validate(cache, bs).warnings <==>
              || w in Ceilings(Group(bs), MaxCounts(Townhall(bs).value), MaxLevels(Townhall(bs).value)).warnings
              || (Previous(cache, bs).Some? && w in Floors(MaxCounts(Previous(cache, bs).value), Group(bs)).warnings)
  {
  }

  /** The ceiling warnings about a kind are those of its checks on all its
      instances when it occurs, and there are none when it does not. */
  lemma CeilingOutcome(cache: map<string, EntryData>, bs: seq<RecordValue>, w: Warning)
    requires Checkable(cache, bs) && Townhall(bs).Some? && IsCeiling(w)
    ensures var th := Townhall(bs).value;
            w in Validate(cache, bs).warnings <==>
              Occurs(bs, w.kind) && w in KindCheck(w.kind, Instances(bs, w.kind), MaxCounts(th), MaxLevels(th)).warnings
  {
    var th := Townhall(bs).value;
    ValidateWarnings(cache, bs, w);
    GroupLevels(bs);
    CeilingsOutcome(Group(bs), MaxCounts(th), MaxLevels(th), w);
    var prev := Previous(cache, bs);
    if prev.Some? {
      CombineKeys(CountTables(prev.value.capacity.value));
      FloorsOutcome(MaxCounts(prev.value), Group(bs), w);
    }
  }

  /** The floor warnings: "not found" for a kind the previous level's summed
      count tables require and the village lacks, "count is less than
      required" for one the village has fewer instances of than required. */
  lemma FloorOutcome(cache: map<string, EntryData>, bs: seq<RecordValue>, name: string)
    requires Checkable(cache, bs) && Townhall(bs).Some?
    ensures var prev := Previous(cache, bs);
            Missing(name) in Validate(cache, bs).warnings <==>
              prev.Some? && name in Keys(MaxCounts(prev.value)) && !Occurs(bs, Some(name))
    ensures var prev := Previous(cache, bs);
            TooFew(name) in Validate(cache, bs).warnings <==>
              prev.Some? && Occurs(bs, Some(name)) && GetOr(MaxCounts(prev.value), name, 0) > |Instances(bs, Some(name))|
  {
    var th := Townhall(bs).value;
    ValidateWarnings(cache, bs, Missing(name));
    ValidateWarnings(cache, bs, TooFew(name));
    GroupLevels(bs);
    CeilingsOutcome(Group(bs), MaxCounts(th), MaxLevels(th), Missing(name));
    CeilingsOutcome(Group(bs), MaxCounts(th), MaxLevels(th), TooFew(name));
    var prev := Previous(cache, bs);
    if prev.Some? {
      CombineKeys(CountTables(prev.value.capacity.value));
      FloorsOutcome(MaxCounts(prev.value), Group(bs), Missing(name));
      FloorsOutcome(MaxCounts(prev.value), Group(bs), TooFew(name));
    }
  }

  /** Checks never stop early and keep detection order: every ceiling
      warning comes before every floor warning. */
  lemma CeilingsBeforeFloors(cache: map<string, EntryData>, bs: seq<RecordValue>)
    requires Checkable(cache, bs)
    ensures var ws := Validate(cache, bs).warnings;
            forall i, j :: 0 <= i < j < |ws| && IsFloor(ws[i]) ==> IsFloor(ws[j])
  {
    var th := Townhall(bs);
    if th.Some? {
      var current := Group(bs);
      var c := Ceilings(current, MaxCounts(th.value), MaxLevels(th.value)).warnings;
      CeilingsKinds(current, MaxCounts(th.value), MaxLevels(th.value));
      assert forall i :: 0 <= i < |c| ==> IsCeiling(c[i]);
      var prev := Previous(cache, bs);
      if prev.Some? {
        var f := Floors(MaxCounts(prev.value), current).warnings;
        forall i | 0 <= i < |f| ensures IsFloor(f[i]) {
          FloorsMembers(MaxCounts(prev.value), current, f[i]);
        }
      }
    }
  }

  // ---------------------------------------------------------------------
  // The imperative validator

  /** `validate_village`, loop by loop as the source writes it. */
  method ValidateVillage(buildings: seq<RecordValue>, cache: map<string, EntryData>)
    returns (valid: bool, warnings: seq<Warning>)
    requires Checkable(cache, buildings)
    ensures Verdict(valid, warnings) == Validate(cache, buildings)
  {
    var townhall, previous, current := FirstPass(buildings, cache);
    if townhall.None? {
      return false, [];
    }
    var cap := townhall.value.capacity.value;
    var maxCount := CombineTables(CountTables(cap));
    var maxLevel := CombineTables(LevelTables(cap));
    valid, warnings := CheckCeilings(current, maxCount, maxLevel);
    if previous.None? {
      return;
    }
    var minCount := CombineTables(CountTables(previous.value.capacity.value));
    valid, warnings := CheckFloors(minCount, current, valid, warnings);
  }

  /** The first loop: the townhall, the previous level record and the
      grouped levels. */
  method FirstPass(buildings: seq<RecordValue>, cache: map<string, EntryData>)
    returns (townhall: Option<RecordValue>, previous: Option<RecordValue>, current: Dict<Kind, seq<int>>)
    requires AllScannable(cache, buildings)
    ensures townhall == Townhall(buildings) && previous == Previous(cache, buildings) && current == Group(buildings)
  {
    townhall, previous, current := None, None, [];
    for i := 0 to |buildings|
      invariant townhall == Townhall(buildings[..i]) && previous == Previous(cache, buildings[..i])
      invariant current == Group(buildings[..i])
    {
      assert buildings[..i + 1][..i] == buildings[..i];
      var b := buildings[i];
      var level := ParseInt(b.level.value);
      if b.kind == Some(TOWNHALL) {
        townhall := Some(b);
        if TOWNHALL in cache && level > 1 {
          previous := Some(cache[TOWNHALL].levels[IntToString(level - 1)]);
        }
      }
      match Get(current, b.kind)
      case None => current := Set(current, b.kind, [level]);
      case Some(ls) => current := Set(current, b.kind, ls + [level]);
    }
    assert buildings[..|buildings|] == buildings;
  }

  /** The ceiling loop over the groups. */
  method CheckCeilings(current: Dict<Kind, seq<int>>, maxCount: Dict<string, int>, maxLevel: Dict<string, int>)
    returns (valid: bool, warnings: seq<Warning>)
    requires NonEmptyGroups(current)
    ensures Verdict(valid, warnings) == Ceilings(current, maxCount, maxLevel)
  {
    valid, warnings := true, [];
    for i := 0 to |current|
      invariant Verdict(valid, warnings) == Ceilings(current[..i], maxCount, maxLevel)
    {
      assert current[..i + 1][..i] == current[..i];
      valid, warnings := CheckKind(current[i].0, current[i].1, maxCount, maxLevel, valid, warnings);
    }
    assert current[..|current|] == current;
  }

  /** One pass of the ceiling loop: the checks of one kind, continuing the
      verdict so far (a `continue` of the source is a `return` here). */
  method CheckKind(kind: Kind, levels: seq<int>, maxCount: Dict<string, int>, maxLevel: Dict<string, int>,
                   valid0: bool, warnings0: seq<Warning>)
    returns (valid: bool, warnings: seq<Warning>)
    requires levels != []
    ensures Verdict(valid, warnings) == Conj(Verdict(valid0, warnings0), KindCheck(kind, levels, maxCount, maxLevel))
  {
    valid, warnings := valid0, warnings0;
    var count := Lookup(maxCount, kind);
    if count.None? && kind != Some(TOWNHALL) {
      warnings := warnings + [NotInTownhall(kind)];
      valid := false;
    }
    if count.None? {
      if kind != Some(TOWNHALL) {
        warnings := warnings + [CountNotFound(kind)];
      }
      return;
    }
    if |levels| > count.value {
      warnings := warnings + [TooMany(kind)];
      valid := false;
    }
    var top := Lookup(maxLevel, kind);
    if top.None? {
      warnings := warnings + [LevelNotFound(kind)];
      return;
    }
    if Max(levels) > top.value {
      warnings := warnings + [LevelTooHigh(kind)];
      valid := false;
    }
  }

  /** The floor loop, continuing the verdict `valid0`/`warnings0`. */
  method CheckFloors(minCount: Dict<string, int>, current: Dict<Kind, seq<int>>, valid0: bool, warnings0: seq<Warning>)
    returns (valid: bool, warnings: seq<Warning>)
    ensures Verdict(valid, warnings) == Conj(Verdict(valid0, warnings0), Floors(minCount, current))
  {
    valid, warnings := valid0, warnings0;
    for i := 0 to |minCount|
      invariant Verdict(valid, warnings) == Conj(Verdict(valid0, warnings0), Floors(minCount[..i], current))
    {
      assert minCount[..i + 1][..i] == minCount[..i];
      var (name, required) := minCount[i];
      var have := Get(current, Some(name));
      if have.None? {
        warnings := warnings + [Missing(name)];
        valid := false;
        continue;
      }
      if required > |have.value| {
        warnings := warnings + [TooFew(name)];
        valid := false;
      }
    }
    assert minCount[..|minCount|] == minCount;
  }
}
