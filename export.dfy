/** The export and import router. The three user tables (categories,
    activities, completion logs) are maps from id to row inside one store;
    the ids the database assigns are modelled as a counter per table that
    stays above every id in use. The clock is the string `now`. */
module Export {
  import opened Common

  datatype CategoryRow = CategoryRow(
    id: int, userId: int, name: string, color: string, icon: Option<string>,
    isActive: bool, createdAt: string)

  datatype ActivityRow = ActivityRow(
    id: int, userId: int, name: string, points: int, isActive: bool,
    daysOfWeek: Option<string>, categoryId: Option<int>, createdAt: string)

  datatype LogRow = LogRow(
    id: int, userId: int, activityId: int, completedAt: string, createdAt: string)

  /** Entries of an import payload; None marks a key that is absent. */
  datatype CategoryIn = CategoryIn(
    id: int, name: string, color: string, icon: Option<string>,
    isActive: Option<bool>, createdAt: Option<string>)

  datatype ActivityIn = ActivityIn(
    id: int, name: string, points: int, isActive: Option<bool>,
    daysOfWeek: Option<string>, categoryId: Option<int>, createdAt: Option<string>)

  datatype LogIn = LogIn(activityId: int, completedAt: string, createdAt: Option<string>)

  datatype ImportData = ImportData(
    version: Option<string>,
    activities: Option<seq<ActivityIn>>,
    categories: Option<seq<CategoryIn>>,
    logs: Option<seq<LogIn>>)

  datatype ImportCounts = ImportCounts(activities: nat, categories: nat, logs: nat)

  datatype Statistics = Statistics(totalActivities: nat, totalCategories: nat, totalLogs: nat)

  datatype ExportData = ExportData(
    activities: seq<ActivityRow>,
    categories: seq<CategoryRow>,
    logs: seq<LogRow>,
    statistics: Statistics)

  // ---------------------------------------------------------------------
  // Row construction and the id maps

  function OrDefault<T>(o: Option<T>, d: T): T
  {
    if o.Some? then o.value else d
  }

  /** The category row inserted for a payload entry. */
  function NewCategory(c: CategoryIn, id: int, user: int, now: string): CategoryRow
  {
    CategoryRow(id, user, c.name, c.color, c.icon, OrDefault(c.isActive, true), OrDefault(c.createdAt, now))
  }

  /** The payload's category id as stored on an imported activity: a
      truthy id found in the category map is translated, anything else
      (absent, zero or unknown) becomes None. */
  function Translated(c: Option<int>, catMap: map<int, int>): (r: Option<int>)
    ensures r.Some? <==> c.Some? && c.value != 0 && c.value in catMap
    ensures r.Some? ==> r.value == catMap[c.value]
  {
    if c.Some? && c.value != 0 && c.value in catMap then Some(catMap[c.value]) else None
  }

  /** The activity row inserted for a payload entry. */
  function NewActivity(a: ActivityIn, id: int, user: int, catMap: map<int, int>, now: string): ActivityRow
  {
    ActivityRow(id, user, a.name, a.points, OrDefault(a.isActive, true), a.daysOfWeek,
                Translated(a.categoryId, catMap), OrDefault(a.createdAt, now))
  }

  function NewLog(l: LogIn, id: int, user: int, activityId: int, now: string): LogRow
  {
    LogRow(id, user, activityId, l.completedAt, OrDefault(l.createdAt, now))
  }

  /** The last payload category carrying old id k; the id map keeps the
      target of the last such entry, since later entries overwrite it. */
  function LastCategory(cats: seq<CategoryIn>, k: int): (r: Option<CategoryIn>)
    ensures r.Some? ==> r.value in cats && r.value.id == k
  {
    if cats == [] then None
    else if cats[|cats| - 1].id == k then Some(cats[|cats| - 1])
    else LastCategory(cats[..|cats| - 1], k)
  }

  function LastActivity(acts: seq<ActivityIn>, k: int): (r: Option<ActivityIn>)
    ensures r.Some? ==> r.value in acts && r.value.id == k
  {
    if acts == [] then None
    else if acts[|acts| - 1].id == k then Some(acts[|acts| - 1])
    else LastActivity(acts[..|acts| - 1], k)
  }

  /** Every old id that occurs in the payload has a last entry. */
  lemma {:induction false} LastCategoryFound(cats: seq<CategoryIn>, j: int)
    requires 0 <= j < |cats|
    ensures LastCategory(cats, cats[j].id).Some?
    decreases |cats|
  {
    if cats[|cats| - 1].id != cats[j].id {
      assert j < |cats| - 1;
      assert cats[..|cats| - 1][j] == cats[j];
      LastCategoryFound(cats[..|cats| - 1], j);
    }
  }

  lemma {:induction false} LastActivityFound(acts: seq<ActivityIn>, j: int)
    requires 0 <= j < |acts|
    ensures LastActivity(acts, acts[j].id).Some?
    decreases |acts|
  {
    if acts[|acts| - 1].id != acts[j].id {
      assert j < |acts| - 1;
      assert acts[..|acts| - 1][j] == acts[j];
      LastActivityFound(acts[..|acts| - 1], j);
    }
  }

  lemma LastCategoryStep(cats: seq<CategoryIn>, i: int, k: int)
    requires 0 <= i < |cats|
    ensures LastCategory(cats[..i + 1], k) == if cats[i].id == k then Some(cats[i]) else LastCategory(cats[..i], k)
  {
    assert cats[..i + 1][..i] == cats[..i];
  }

  lemma LastActivityStep(acts: seq<ActivityIn>, i: int, k: int)
    requires 0 <= i < |acts|
    ensures LastActivity(acts[..i + 1], k) == if acts[i].id == k then Some(acts[i]) else LastActivity(acts[..i], k)
  {
    assert acts[..i + 1][..i] == acts[..i];
  }

  /** The ids old .. next - 1 that the counter handed out. */
  function IdRange(lo: int, hi: int): (r: set<int>)
    ensures forall k :: k in r <==> lo <= k < hi
    decreases hi - lo
  {
    if lo >= hi then {} else IdRange(lo, hi - 1) + {hi - 1}
  }

  lemma {:induction false} IdRangeCard(lo: int, hi: int)
    requires lo <= hi
    ensures |IdRange(lo, hi)| == hi - lo
    decreases hi - lo
  {
    if lo < hi {
      IdRangeCard(lo, hi - 1);
      assert IdRange(lo, hi) == IdRange(lo, hi - 1) + {hi - 1};
    } else {
      assert IdRange(lo, hi) == {};
    }
  }

  // ---------------------------------------------------------------------
  // Properties of the tables

  /** Every row of the old table is still there, unchanged. */
  predicate Grows<R(==)>(before: map<int, R>, after: map<int, R>)
  {
    forall k :: k in before ==> k in after && after[k] == before[k]
  }

  /** Every category inserted since `before` is the user's and shares its
      name with no other category of the user. */
  predicate CategoriesFresh(before: map<int, CategoryRow>, after: map<int, CategoryRow>, user: int)
  {
    forall k, k2 :: k in after && k !in before && k2 in after && k2 != k && after[k2].userId == user
      ==> after[k].userId == user && after[k2].name != after[k].name
  }

  predicate ActivitiesFresh(before: map<int, ActivityRow>, after: map<int, ActivityRow>, user: int)
  {
    forall k, k2 :: k in after && k !in before && k2 in after && k2 != k && after[k2].userId == user
      ==> after[k].userId == user && after[k2].name != after[k].name
  }

  /** Every log inserted since `before` is the user's and duplicates no
      other log of the user (same activity, same completion time). */
  predicate LogsFresh(before: map<int, LogRow>, after: map<int, LogRow>, user: int)
  {
    forall k, k2 :: k in after && k !in before && k2 in after && k2 != k && after[k2].userId == user
      ==> after[k].userId == user
          && !(after[k2].activityId == after[k].activityId && after[k2].completedAt == after[k].completedAt)
  }

  predicate HasLog(logs: map<int, LogRow>, user: int, activityId: int, completedAt: string)
  {
    exists k :: k in logs && logs[k].userId == user && logs[k].activityId == activityId && logs[k].completedAt == completedAt
  }

  // ---------------------------------------------------------------------
  // Export

  /** The rows under the ids `keys`, in some order (the queries order them
      by creation time, which is not modelled). */
  ghost function RowsOf<R>(m: map<int, R>, keys: set<int>): (r: seq<R>)
    requires keys <= m.Keys
    ensures |r| == |keys|
    ensures forall i :: 0 <= i < |r| ==> exists k :: k in keys && r[i] == m[k]
    ensures forall k :: k in keys ==> m[k] in r
    ensures Injective(m, keys) ==> forall i, j :: 0 <= i < j < |r| ==> r[i] != r[j]
    decreases keys
  {
    if keys == {} then []
    else
      HasMember(keys);
      var k :| k in keys;
      var rest := RowsOf(m, keys - {k});
      assert Injective(m, keys) ==> Injective(m, keys - {k});
      [m[k]] + rest
  }

  /** Different keys hold different rows. */
  ghost predicate Injective<R>(m: map<int, R>, keys: set<int>)
    requires keys <= m.Keys
  {
    forall k1, k2 :: k1 in keys && k2 in keys && k1 != k2 ==> m[k1] != m[k2]
  }

  function UserCategories(m: map<int, CategoryRow>, user: int): set<int>
  {
    set k | k in m && m[k].userId == user
  }

  function UserActivities(m: map<int, ActivityRow>, user: int): set<int>
  {
    set k | k in m && m[k].userId == user
  }

  function UserLogs(m: map<int, LogRow>, user: int): set<int>
  {
    set k | k in m && m[k].userId == user
  }

  /** export_data: the user's activities, categories and logs, with
      statistics counting each list. */
  ghost function ExportOf(cats: map<int, CategoryRow>, acts: map<int, ActivityRow>, logs: map<int, LogRow>, user: int)
    : (e: ExportData)
    ensures e.statistics.totalActivities == |e.activities| == |UserActivities(acts, user)|
    ensures e.statistics.totalCategories == |e.categories| == |UserCategories(cats, user)|
    ensures e.statistics.totalLogs == |e.logs| == |UserLogs(logs, user)|
    ensures forall i :: 0 <= i < |e.activities| ==> e.activities[i].userId == user
    ensures forall i :: 0 <= i < |e.categories| ==> e.categories[i].userId == user
    ensures forall i :: 0 <= i < |e.logs| ==> e.logs[i].userId == user
    ensures forall k :: k in UserActivities(acts, user) ==> acts[k] in e.activities
    ensures forall k :: k in UserCategories(cats, user) ==> cats[k] in e.categories
    ensures forall k :: k in UserLogs(logs, user) ==> logs[k] in e.logs
    ensures (forall k :: k in acts ==> acts[k].id == k) ==>
      forall i, j :: 0 <= i < j < |e.activities| ==> e.activities[i] != e.activities[j]
    ensures (forall k :: k in cats ==> cats[k].id == k) ==>
      forall i, j :: 0 <= i < j < |e.categories| ==> e.categories[i] != e.categories[j]
    ensures (forall k :: k in logs ==> logs[k].id == k) ==>
      forall i, j :: 0 <= i < j < |e.logs| ==> e.logs[i] != e.logs[j]
  {
    var a := RowsOf(acts, UserActivities(acts, user));
    var c := RowsOf(cats, UserCategories(cats, user));
    var l := RowsOf(logs, UserLogs(logs, user));
    ExportData(a, c, l, Statistics(|a|, |c|, |l|))
  }

  /** What the category loop has done after the first n payload entries,
      starting from the table `start`: the rows as CategoriesInserted says, and
      the id map as CategoriesMapped says. */
  ghost predicate CategoriesImported(start: map<int, CategoryRow>, categories: map<int, CategoryRow>, cats: seq<CategoryIn>, n: int,
                                  catMap: map<int, int>, user: int, now: string)
    requires 0 <= n <= |cats|
  {
    CategoriesInserted(start, categories, cats, user, now) && CategoriesMapped(cats, n, catMap, categories, user)
  }

  /** The loop only inserted, and each new row comes from a payload entry
      and shares its name with no other row of the user. */
  ghost predicate CategoriesInserted(start: map<int, CategoryRow>, categories: map<int, CategoryRow>, cats: seq<CategoryIn>,
                                  user: int, now: string)
  {
    && Grows(start, categories)
    && CategoriesFresh(start, categories, user)
    && (forall k :: k in categories && k !in start ==> exists c :: c in cats && categories[k] == NewCategory(c, k, user, now))
  }

  /** The id map sends each old id among the first n entries to a row of
      the user named as the last entry with that id. */
  ghost predicate CategoriesMapped(cats: seq<CategoryIn>, n: int, catMap: map<int, int>, categories: map<int, CategoryRow>, user: int)
    requires 0 <= n <= |cats|
  {
    && (forall k :: k in catMap <==> LastCategory(cats[..n], k).Some?)
    && (forall k :: k in catMap ==>
          && catMap[k] in categories && categories[catMap[k]].userId == user
          && categories[catMap[k]].name == LastCategory(cats[..n], k).value.name)
  }

  /** Mapping entry i to a row of the user with its name, in a table that
      only grew, keeps CategoriesMapped. */
  lemma CategoryMapStep(cats: seq<CategoryIn>, i: int, catMap0: map<int, int>, before: map<int, CategoryRow>, after: map<int, CategoryRow>,
                        target: int, user: int)
    requires 0 <= i < |cats|
    requires CategoriesMapped(cats, i, catMap0, before, user) && Grows(before, after)
    requires target in after && after[target].userId == user && after[target].name == cats[i].name
    ensures CategoriesMapped(cats, i + 1, catMap0[cats[i].id := target], after, user)
  {
    var catMap := catMap0[cats[i].id := target];
    forall k ensures LastCategory(cats[..i + 1], k) == if cats[i].id == k then Some(cats[i]) else LastCategory(cats[..i], k) {
      LastCategoryStep(cats, i, k);
    }
    forall k | k in catMap
      ensures catMap[k] in after && after[catMap[k]].userId == user && after[catMap[k]].name == LastCategory(cats[..i + 1], k).value.name
    {
      LastCategoryStep(cats, i, k);
      if k != cats[i].id {
        var t := catMap0[k];
        assert t in before;
        assert t in after;
      }
    }
  }

  /** Inserting entry i under an unused id, when the user has no row of
      that name, keeps CategoriesInserted. */
  lemma CategoryInsertStep(start: map<int, CategoryRow>, before: map<int, CategoryRow>, cats: seq<CategoryIn>, i: int, id: int,
                           user: int, now: string)
    requires 0 <= i < |cats| && id !in before
    requires CategoriesInserted(start, before, cats, user, now)
    requires forall k :: k in before ==> !(before[k].userId == user && before[k].name == cats[i].name)
    ensures CategoriesInserted(start, before[id := NewCategory(cats[i], id, user, now)], cats, user, now)
  {
    var row := NewCategory(cats[i], id, user, now);
    var after := before[id := row];
    forall k, k2 | k in after && k !in start && k2 in after && k2 != k && after[k2].userId == user
      ensures after[k].userId == user && after[k2].name != after[k].name
    {
      if k == id {
        assert k2 in before;
      } else {
        var c :| c in cats && before[k] == NewCategory(c, k, user, now);
        if k2 == id {
          assert k in before;
        }
      }
    }
    assert after[id] == row;
  }

  /** What the activity loop has done after the first n payload entries,
      starting from the table `start`: the rows as ActivitiesInserted says, and
      the id map as ActivitiesMapped says. */
  ghost predicate ActivitiesImported(start: map<int, ActivityRow>, activities: map<int, ActivityRow>, acts: seq<ActivityIn>, n: int,
                                  actMap: map<int, int>, user: int, catMap: map<int, int>, now: string)
    requires 0 <= n <= |acts|
  {
    ActivitiesInserted(start, activities, acts, user, catMap, now) && ActivitiesMapped(acts, n, actMap, activities, user)
  }

  /** The loop only inserted, and each new row comes from a payload entry
      and shares its name with no other row of the user. */
  ghost predicate ActivitiesInserted(start: map<int, ActivityRow>, activities: map<int, ActivityRow>, acts: seq<ActivityIn>,
                                  user: int, catMap: map<int, int>, now: string)
  {
    && Grows(start, activities)
    && ActivitiesFresh(start, activities, user)
    && (forall k :: k in activities && k !in start ==> exists a :: a in acts && activities[k] == NewActivity(a, k, user, catMap, now))
  }

  /** The id map sends each old id among the first n entries to a row of
      the user named as the last entry with that id. */
  ghost predicate ActivitiesMapped(acts: seq<ActivityIn>, n: int, actMap: map<int, int>, activities: map<int, ActivityRow>, user: int)
    requires 0 <= n <= |acts|
  {
    && (forall k :: k in actMap <==> LastActivity(acts[..n], k).Some?)
    && (forall k :: k in actMap ==>
          && actMap[k] in activities && activities[actMap[k]].userId == user
          && activities[actMap[k]].name == LastActivity(acts[..n], k).value.name)
  }

  /** Mapping entry i to a row of the user with its name, in a table that
      only grew, keeps ActivitiesMapped. */
  lemma ActivityMapStep(acts: seq<ActivityIn>, i: int, actMap0: map<int, int>, before: map<int, ActivityRow>, after: map<int, ActivityRow>,
                        target: int, user: int)
    requires 0 <= i < |acts|
    requires ActivitiesMapped(acts, i, actMap0, before, user) && Grows(before, after)
    requires target in after && after[target].userId == user && after[target].name == acts[i].name
    ensures ActivitiesMapped(acts, i + 1, actMap0[acts[i].id := target], after, user)
  {
    var actMap := actMap0[acts[i].id := target];
    forall k ensures LastActivity(acts[..i + 1], k) == if acts[i].id == k then Some(acts[i]) else LastActivity(acts[..i], k) {
      LastActivityStep(acts, i, k);
    }
    forall k | k in actMap
      ensures actMap[k] in after && after[actMap[k]].userId == user && after[actMap[k]].name == LastActivity(acts[..i + 1], k).value.name
    {
      LastActivityStep(acts, i, k);
      if k != acts[i].id {
        var t := actMap0[k];
        assert t in before;
        assert t in after;
      }
    }
  }

  /** Inserting entry i under an unused id, when the user has no row of
      that name, keeps ActivitiesInserted. */
  lemma ActivityInsertStep(start: map<int, ActivityRow>, before: map<int, ActivityRow>, acts: seq<ActivityIn>, i: int, id: int,
                           user: int, catMap: map<int, int>, now: string)
    requires 0 <= i < |acts| && id !in before
    requires ActivitiesInserted(start, before, acts, user, catMap, now)
    requires forall k :: k in before ==> !(before[k].userId == user && before[k].name == acts[i].name)
    ensures ActivitiesInserted(start, before[id := NewActivity(acts[i], id, user, catMap, now)], acts, user, catMap, now)
  {
    var row := NewActivity(acts[i], id, user, catMap, now);
    var after := before[id := row];
    forall k, k2 | k in after && k !in start && k2 in after && k2 != k && after[k2].userId == user
      ensures after[k].userId == user && after[k2].name != after[k].name
    {
      if k == id {
        assert k2 in before;
      } else {
        var a :| a in acts && before[k] == NewActivity(a, k, user, catMap, now);
        if k2 == id {
          assert k in before;
        }
      }
    }
    assert after[id] == row;
  }

  // ---------------------------------------------------------------------
  // The store

  class DataStore {
    var categories: map<int, CategoryRow>
    var activities: map<int, ActivityRow>
    var logs: map<int, LogRow>
    var nextCategoryId: int
    var nextActivityId: int
    var nextLogId: int

    ghost predicate Valid()
      reads this
    {
      && (forall k :: k in categories ==> k < nextCategoryId && categories[k].id == k)
      && (forall k :: k in activities ==> k < nextActivityId && activities[k].id == k)
      && (forall k :: k in logs ==> k < nextLogId && logs[k].id == k)
    }

    constructor ()
      ensures Valid()
      ensures categories == map[] && activities == map[] && logs == map[]
    {
      categories, activities, logs := map[], map[], map[];
      nextCategoryId, nextActivityId, nextLogId := 1, 1, 1;
    }

    /** The look-up by name: some category of the user with that name, if
        there is one (which one, when several, is the database's choice). */
    method FindCategory(user: int, name: string) returns (found: Option<int>)
      ensures found.None? <==> forall k :: k in categories ==> !(categories[k].userId == user && categories[k].name == name)
      ensures found.Some? ==> found.value in categories && categories[found.value].userId == user && categories[found.value].name == name
    {
      if exists k :: k in categories && categories[k].userId == user && categories[k].name == name {
        var k :| k in categories && categories[k].userId == user && categories[k].name == name;
        found := Some(k);
      } else {
        found := None;
      }
    }

    method FindActivity(user: int, name: string) returns (found: Option<int>)
      ensures found.None? <==> forall k :: k in activities ==> !(activities[k].userId == user && activities[k].name == name)
      ensures found.Some? ==> found.value in activities && activities[found.value].userId == user && activities[found.value].name == name
    {
      if exists k :: k in activities && activities[k].userId == user && activities[k].name == name {
        var k :| k in activities && activities[k].userId == user && activities[k].name == name;
        found := Some(k);
      } else {
        found := None;
      }
    }

    method HasLogFor(user: int, activityId: int, completedAt: string) returns (b: bool)
      ensures b <==> HasLog(logs, user, activityId, completedAt)
    {
      b := exists k :: k in logs && logs[k].userId == user && logs[k].activityId == activityId && logs[k].completedAt == completedAt;
    }

    /** The category loop of import_data: each payload category maps its
        old id to the user's category of the same name, inserting one only
        when none exists. */
    method ImportCategories(cats: seq<CategoryIn>, user: int, now: string) returns (catMap: map<int, int>)
      requires Valid()
      modifies this
      ensures Valid()
      ensures activities == old(activities) && logs == old(logs)
      ensures nextActivityId == old(nextActivityId) && nextLogId == old(nextLogId)
      ensures Grows(old(categories), categories)
      ensures CategoriesFresh(old(categories), categories, user)
      ensures forall k :: k in categories && k !in old(categories) ==> exists c :: c in cats && categories[k] == NewCategory(c, k, user, now)
      ensures forall k :: k in catMap <==> LastCategory(cats, k).Some?
      ensures forall k :: k in catMap ==>
        && catMap[k] in categories && categories[catMap[k]].userId == user
        && categories[catMap[k]].name == LastCategory(cats, k).value.name
    {
      catMap := map[];
      for i := 0 to |cats|
        invariant Valid()
        invariant activities == old(activities) && logs == old(logs)
        invariant nextActivityId == old(nextActivityId) && nextLogId == old(nextLogId)
        invariant CategoriesImported(old(categories), categories, cats, i, catMap, user, now)
      {
        catMap := ImportCategory(old(categories), cats, i, catMap, user, now);
      }
      assert cats[..|cats|] == cats;
    }

    /** Payload category i: mapped to the user's category of that name,
        inserted under the next id when there is none. */
    method ImportCategory(ghost start: map<int, CategoryRow>, cats: seq<CategoryIn>, i: int, catMap0: map<int, int>, user: int, now: string)
      returns (catMap: map<int, int>)
      requires Valid() && 0 <= i < |cats|
      requires CategoriesImported(start, categories, cats, i, catMap0, user, now)
      modifies this
      ensures Valid()
      ensures activities == old(activities) && logs == old(logs)
      ensures nextActivityId == old(nextActivityId) && nextLogId == old(nextLogId)
      ensures CategoriesImported(start, categories, cats, i + 1, catMap, user, now)
    {
      var found := FindCategory(user, cats[i].name);
      if found.Some? {
        catMap := catMap0[cats[i].id := found.value];
        CategoryMapStep(cats, i, catMap0, categories, categories, found.value, user);
      } else {
        var id := nextCategoryId;
        ghost var before := categories;
        categories := categories[id := NewCategory(cats[i], id, user, now)];
        nextCategoryId := nextCategoryId + 1;
        catMap := catMap0[cats[i].id := id];
        CategoryInsertStep(start, before, cats, i, id, user, now);
        CategoryMapStep(cats, i, catMap0, before, categories, id, user);
      }
    }

    /** The activity loop of import_data: as for categories, and an
        inserted activity's category id is translated through the map. */
    method ImportActivities(acts: seq<ActivityIn>, catMap: map<int, int>, user: int, now: string)
      returns (actMap: map<int, int>)
      requires Valid()
      modifies this
      ensures Valid()
      ensures categories == old(categories) && logs == old(logs)
      ensures nextCategoryId == old(nextCategoryId) && nextLogId == old(nextLogId)
      ensures Grows(old(activities), activities)
      ensures ActivitiesFresh(old(activities), activities, user)
      ensures forall k :: k in activities && k !in old(activities) ==> exists a :: a in acts && activities[k] == NewActivity(a, k, user, catMap, now)
      ensures forall k :: k in actMap <==> LastActivity(acts, k).Some?
      ensures forall k :: k in actMap ==>
        && actMap[k] in activities && activities[actMap[k]].userId == user
        && activities[actMap[k]].name == LastActivity(acts, k).value.name
    {
      actMap := map[];
      for i := 0 to |acts|
        invariant Valid()
        invariant categories == old(categories) && logs == old(logs)
        invariant nextCategoryId == old(nextCategoryId) && nextLogId == old(nextLogId)
        invariant ActivitiesImported(old(activities), activities, acts, i, actMap, user, catMap, now)
      {
        actMap := ImportActivity(old(activities), acts, i, actMap, user, catMap, now);
      }
      assert acts[..|acts|] == acts;
    }

    /** Payload activity i: mapped to the user's activity of that name,
        inserted under the next id when there is none. */
    method ImportActivity(ghost start: map<int, ActivityRow>, acts: seq<ActivityIn>, i: int, actMap0: map<int, int>, user: int, catMap: map<int, int>, now: string)
      returns (actMap: map<int, int>)
      requires Valid() && 0 <= i < |acts|
      requires ActivitiesImported(start, activities, acts, i, actMap0, user, catMap, now)
      modifies this
      ensures Valid()
      ensures categories == old(categories) && logs == old(logs)
      ensures nextCategoryId == old(nextCategoryId) && nextLogId == old(nextLogId)
      ensures ActivitiesImported(start, activities, acts, i + 1, actMap, user, catMap, now)
    {
      var found := FindActivity(user, acts[i].name);
      if found.Some? {
        actMap := actMap0[acts[i].id := found.value];
        ActivityMapStep(acts, i, actMap0, activities, activities, found.value, user);
      } else {
        var id := nextActivityId;
        ghost var before := activities;
        activities := activities[id := NewActivity(acts[i], id, user, catMap, now)];
        nextActivityId := nextActivityId + 1;
        actMap := actMap0[acts[i].id := id];
        ActivityInsertStep(start, before, acts, i, id, user, catMap, now);
        ActivityMapStep(acts, i, actMap0, before, activities, id, user);
      }
    }

    /** One pass of the log loop: a log whose activity was mapped is
        inserted, under the next id, unless the user already has a log of
        that activity at that time. */
    method ImportLog(l: LogIn, actMap: map<int, int>, user: int, now: string) returns (inserted: bool)
      requires Valid()
      modifies this
      ensures Valid()
      ensures categories == old(categories) && activities == old(activities)
      ensures nextCategoryId == old(nextCategoryId) && nextActivityId == old(nextActivityId)
      ensures inserted <==> l.activityId in actMap && !HasLog(old(logs), user, actMap[l.activityId], l.completedAt)
      ensures inserted ==>
        && logs == old(logs)[old(nextLogId) := NewLog(l, old(nextLogId), user, actMap[l.activityId], now)]
        && nextLogId == old(nextLogId) + 1
      ensures !inserted ==> logs == old(logs) && nextLogId == old(nextLogId)
      ensures l.activityId in actMap ==> HasLog(logs, user, actMap[l.activityId], l.completedAt)
    {
      inserted := false;
      if l.activityId in actMap {
        var activityId := actMap[l.activityId];
        var present := HasLogFor(user, activityId, l.completedAt);
        if !present {
          var id := nextLogId;
          logs := logs[id := NewLog(l, id, user, activityId, now)];
          nextLogId := nextLogId + 1;
          inserted := true;
          assert id in logs && logs[id].userId == user && logs[id].activityId == activityId && logs[id].completedAt == l.completedAt;
        }
      }
    }

    /** The log loop of import_data: the result counts the inserts, which
        are exactly the new rows; afterwards the user has a log for every
        payload log whose activity was mapped, and no inserted log
        duplicates another. */
    method ImportLogs(payload: seq<LogIn>, actMap: map<int, int>, user: int, now: string) returns (imported: nat)
      requires Valid()
      modifies this
      ensures Valid()
      ensures categories == old(categories) && activities == old(activities)
      ensures nextCategoryId == old(nextCategoryId) && nextActivityId == old(nextActivityId)
      ensures imported == nextLogId - old(nextLogId) <= |payload|
      ensures LogsImported(old(logs), old(nextLogId), logs, nextLogId, payload, |payload|, actMap, user, now)
    {
      imported := 0;
      for i := 0 to |payload|
        invariant Valid()
        invariant categories == old(categories) && activities == old(activities)
        invariant nextCategoryId == old(nextCategoryId) && nextActivityId == old(nextActivityId)
        invariant imported == nextLogId - old(nextLogId) <= i
        invariant LogsImported(old(logs), old(nextLogId), logs, nextLogId, payload, i, actMap, user, now)
      {
        var inserted := ImportNext(old(logs), old(nextLogId), payload, i, actMap, user, now);
        if inserted {
          imported := imported + 1;
        }
      }
    }

    /** Log i of the payload through ImportLog, keeping LogsImported. */
    method ImportNext(ghost start: map<int, LogRow>, ghost startNext: int,
                      payload: seq<LogIn>, i: int, actMap: map<int, int>, user: int, now: string)
      returns (inserted: bool)
      requires Valid() && 0 <= i < |payload| && startNext <= nextLogId
      requires forall k :: k in start ==> k < startNext
      requires LogsImported(start, startNext, logs, nextLogId, payload, i, actMap, user, now)
      modifies this
      ensures Valid()
      ensures categories == old(categories) && activities == old(activities)
      ensures nextCategoryId == old(nextCategoryId) && nextActivityId == old(nextActivityId)
      ensures nextLogId == old(nextLogId) + (if inserted then 1 else 0)
      ensures LogsImported(start, startNext, logs, nextLogId, payload, i + 1, actMap, user, now)
    {
      ghost var before := logs;
      inserted := ImportLog(payload[i], actMap, user, now);
      if inserted {
        LogInsertedStep(start, startNext, before, old(nextLogId), payload, i, actMap, user, now);
      } else {
        LogSkippedStep(start, startNext, logs, nextLogId, payload, i, actMap, user, now);
      }
    }

    /** The log step of import_data, skipped when the payload has no log
        list; the count it returns is the growth of the log table. */
    method ImportLogsIfAny(payload: Option<seq<LogIn>>, actMap: map<int, int>, user: int, now: string) returns (imported: nat)
      requires Valid()
      modifies this
      ensures Valid()
      ensures categories == old(categories) && activities == old(activities)
      ensures Grows(old(logs), logs) && imported == |logs.Keys| - |old(logs).Keys|
    {
      imported := 0;
      if payload.Some? {
        imported := ImportLogs(payload.value, actMap, user, now);
      }
      assert logs.Keys == old(logs).Keys + IdRange(old(nextLogId), nextLogId) by {
        if payload.None? {
          assert IdRange(old(nextLogId), nextLogId) == {};
        }
      }
      IdRangeCard(old(nextLogId), nextLogId);
      assert old(logs).Keys !! IdRange(old(nextLogId), nextLogId);
    }

    /** import_data: 400 (nothing changed) when the payload lacks a version
        or an activity list; else categories, activities and logs are
        merged in that order, only ever inserting, and the counts reported
        are the sizes of the two id maps and the number of logs inserted. */
    method Import(data: ImportData, user: int, now: string) returns (r: Result<ImportCounts>)
      requires Valid()
      modifies this
      ensures Valid()
      ensures r.Failure? <==> data.version.None? || data.activities.None?
      ensures r.Failure? ==> r.status == 400 && categories == old(categories) && activities == old(activities) && logs == old(logs)
      ensures r.Ok? ==>
        && Grows(old(categories), categories) && Grows(old(activities), activities) && Grows(old(logs), logs)
        && r.value.logs == |logs.Keys| - |old(logs).Keys|
        && r.value.activities == |set a | a in data.activities.value :: a.id|
        && r.value.categories == (if data.categories.None? then 0 else |set c | c in data.categories.value :: c.id|)
    {
      if data.version.None? || data.activities.None? {
        return Failure(400);
      }
      var catMap: map<int, int> := map[];
      if data.categories.Some? {
        catMap := ImportCategories(data.categories.value, user, now);
        MapKeysAreIds(data.categories.value, catMap);
      }
      var actMap := ImportActivities(data.activities.value, catMap, user, now);
      ActivityMapKeysAreIds(data.activities.value, actMap);
      var imported := ImportLogsIfAny(data.logs, actMap, user, now);
      return Ok(ImportCounts(|actMap|, |catMap|, imported));
    }
  }

  /** The inserted log row comes from a payload log whose activity was
      mapped. */
  predicate FromPayload(row: LogRow, payload: seq<LogIn>, actMap: map<int, int>, user: int, now: string)
  {
    exists j :: 0 <= j < |payload| && payload[j].activityId in actMap
      && row == NewLog(payload[j], row.id, user, actMap[payload[j].activityId], now)
  }

  /** What the log loop has done after the first n payload logs, starting
      from the table `start` with counter `startNext`: it only inserted, the
      new rows are exactly the ids the counter handed out, each comes from
      a payload log with a mapped activity, none duplicates another log of
      the user, and every mapped payload log so far has a log in the table. */
  ghost predicate LogsImported(start: map<int, LogRow>, startNext: int, logs: map<int, LogRow>, next: int,
                               payload: seq<LogIn>, n: int, actMap: map<int, int>, user: int, now: string)
    requires 0 <= n <= |payload|
  {
    && Grows(start, logs)
    && logs.Keys == start.Keys + IdRange(startNext, next)
    && LogsFresh(start, logs, user)
    && (forall k :: k in logs && k !in start ==> FromPayload(logs[k], payload, actMap, user, now))
    && (forall j :: 0 <= j < n && payload[j].activityId in actMap ==> HasLog(logs, user, actMap[payload[j].activityId], payload[j].completedAt))
  }

  /** A pass of the log loop that inserts nothing keeps LogsImported, the
      payload log being already present when its activity was mapped. */
  lemma LogSkippedStep(start: map<int, LogRow>, startNext: int, logs: map<int, LogRow>, next: int,
                       payload: seq<LogIn>, i: int, actMap: map<int, int>, user: int, now: string)
    requires 0 <= i < |payload|
    requires LogsImported(start, startNext, logs, next, payload, i, actMap, user, now)
    requires payload[i].activityId in actMap ==> HasLog(logs, user, actMap[payload[i].activityId], payload[i].completedAt)
    ensures LogsImported(start, startNext, logs, next, payload, i + 1, actMap, user, now)
  {
  }

  /** A pass of the log loop that inserts keeps LogsImported. */
  lemma LogInsertedStep(start: map<int, LogRow>, startNext: int, before: map<int, LogRow>,
                        id: int, payload: seq<LogIn>, i: int, actMap: map<int, int>, user: int, now: string)
    requires 0 <= i < |payload| && startNext <= id
    requires forall k :: k in start ==> k < startNext
    requires LogsImported(start, startNext, before, id, payload, i, actMap, user, now)
    requires payload[i].activityId in actMap && !HasLog(before, user, actMap[payload[i].activityId], payload[i].completedAt)
    ensures LogsImported(start, startNext, before[id := NewLog(payload[i], id, user, actMap[payload[i].activityId], now)],
                         id + 1, payload, i + 1, actMap, user, now)
  {
    var row := NewLog(payload[i], id, user, actMap[payload[i].activityId], now);
    var after := before[id := row];
    assert id !in before;
    assert IdRange(startNext, id + 1) == IdRange(startNext, id) + {id};
    assert FromPayload(row, payload, actMap, user, now);
    forall k | k in before && k !in start ensures before[k].userId == user {
      assert FromPayload(before[k], payload, actMap, user, now);
    }
    InsertKeepsFresh(start, before, id, row, user);
    InsertKeepsHasLog(before, id, row, user, payload, i, actMap);
    assert after[id] == row;
  }

  /** Inserting a row of the user that duplicates no log of the user keeps
      the inserted rows fresh. */
  lemma InsertKeepsFresh(start: map<int, LogRow>, before: map<int, LogRow>, id: int, row: LogRow, user: int)
    requires LogsFresh(start, before, user) && id !in before && row.userId == user
    requires forall k :: k in before && k !in start ==> before[k].userId == user
    requires !HasLog(before, user, row.activityId, row.completedAt)
    ensures LogsFresh(start, before[id := row], user)
  {
    var after := before[id := row];
    forall k, k2 | k in after && k !in start && k2 in after && k2 != k && after[k2].userId == user
      ensures after[k].userId == user
      ensures !(after[k2].activityId == after[k].activityId && after[k2].completedAt == after[k].completedAt)
    {
      if k == id {
        assert k2 in before;
      } else if k2 == id {
        assert k in before;
      }
    }
  }

  /** Inserting keeps every log the user already had. */
  lemma InsertKeepsHasLog(before: map<int, LogRow>, id: int, row: LogRow, user: int,
                          payload: seq<LogIn>, i: int, actMap: map<int, int>)
    requires 0 <= i < |payload| && id !in before
    requires forall j :: 0 <= j < i && payload[j].activityId in actMap ==> HasLog(before, user, actMap[payload[j].activityId], payload[j].completedAt)
    ensures forall j :: 0 <= j < i && payload[j].activityId in actMap ==> HasLog(before[id := row], user, actMap[payload[j].activityId], payload[j].completedAt)
  {
    forall j | 0 <= j < i && payload[j].activityId in actMap
      ensures HasLog(before[id := row], user, actMap[payload[j].activityId], payload[j].completedAt)
    {
      var w :| w in before && before[w].userId == user && before[w].activityId == actMap[payload[j].activityId]
        && before[w].completedAt == payload[j].completedAt;
      assert w in before[id := row] && before[id := row][w] == before[w];
    }
  }

  /** The category map is keyed by exactly the payload's old ids. */
  lemma MapKeysAreIds(cats: seq<CategoryIn>, catMap: map<int, int>)
    requires forall k :: k in catMap <==> LastCategory(cats, k).Some?
    ensures catMap.Keys == set c | c in cats :: c.id
  {
    forall k | k in catMap ensures k in set c | c in cats :: c.id {
      assert LastCategory(cats, k).value in cats;
    }
    forall k | k in set c | c in cats :: c.id ensures k in catMap {
      var c :| c in cats && c.id == k;
      var j :| 0 <= j < |cats| && cats[j] == c;
      LastCategoryFound(cats, j);
    }
  }

  lemma ActivityMapKeysAreIds(acts: seq<ActivityIn>, actMap: map<int, int>)
    requires forall k :: k in actMap <==> LastActivity(acts, k).Some?
    ensures actMap.Keys == set a | a in acts :: a.id
  {
    forall k | k in actMap ensures k in set a | a in acts :: a.id {
      assert LastActivity(acts, k).value in acts;
    }
    forall k | k in set a | a in acts :: a.id ensures k in actMap {
      var a :| a in acts && a.id == k;
      var j :| 0 <= j < |acts| && acts[j] == a;
      LastActivityFound(acts, j);
    }
  }
}
