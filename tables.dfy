/**
 * The database tables the REST views and the object-file writer work on,
 * modelled as in-memory sequences of records, with the ORM's `filter`,
 * `get` and many-to-many `add` stated once for every table.
 */
module Tables {
  import opened Wrappers

  /** A decoded JSON value. */
  datatype Value =
    | VNull
    | VBool(b: bool)
    | VNum(n: real)
    | VStr(s: string)
    | VList(items: seq<Value>)
    | VDict(fields: map<string, Value>)

  /** An `Object` record; `aux` is its nullable JSON column. */
  datatype ObjectRow = ObjectRow(
    id: nat, name: string, userId: string, kind: string,
    ra: real, dec: real, priority: int, aux: Value)

  /** An `ObjectList` record with its many-to-many `objects_list`, in insertion order. */
  datatype ObjectListRow = ObjectListRow(id: nat, name: string, userId: string, members: seq<nat>)

  /** An `InstrumentConfig` record. */
  datatype ConfigRow = ConfigRow(
    id: nat, instrument: string, version: int, filters: Value, dispersers: Value, aux: Value)

  /** A `Project` record with its many-to-many `masks`. */
  datatype ProjectRow = ProjectRow(id: nat, name: string, userId: string, masks: seq<nat>)

  /** A `Mask` record with its two object relations. */
  datatype MaskRow = MaskRow(id: nat, name: string, userId: string, objectsList: seq<nat>, excluded: seq<nat>)

  // ----- queries -----

  /** `filter`: the rows satisfying `p`, in table order. */
  function Filter<T(!new)>(rows: seq<T>, p: T -> bool): (hits: seq<T>)
    ensures |hits| <= |rows|
    ensures forall x :: x in hits <==> x in rows && p(x)
  {
    if rows == [] then []
    else (if p(rows[0]) then [rows[0]] else []) + Filter(rows[1..], p)
  }

  /** Rewriting a row that the filter drops, into another row it drops, changes nothing. */
  lemma {:induction false} FilterDropsUpdate<T(!new)>(rows: seq<T>, p: T -> bool, i: nat, row: T)
    requires i < |rows| && !p(rows[i]) && !p(row)
    ensures Filter(rows[i := row], p) == Filter(rows, p)
    decreases |rows|
  {
    if i > 0 {
      assert rows[i := row][1..] == rows[1..][i - 1 := row];
      FilterDropsUpdate(rows[1..], p, i - 1, row);
    } else {
      assert rows[i := row][1..] == rows[1..];
    }
  }

  /** The three outcomes of the ORM's `get`. */
  datatype Got<T> = Found(row: T) | DoesNotExist | MultipleReturned

  /** `get`: the single row satisfying `p`; none and several are errors. */
  function Get<T(!new)>(rows: seq<T>, p: T -> bool): Got<T> {
    var hits := Filter(rows, p);
    if |hits| == 0 then DoesNotExist
    else if |hits| == 1 then Found(hits[0])
    else MultipleReturned
  }

  /** A found row is in the table and satisfies `p`; nothing is found exactly when no row satisfies it. */
  lemma GetFacts<T(!new)>(rows: seq<T>, p: T -> bool)
    ensures Get(rows, p).Found? ==> Get(rows, p).row in rows && p(Get(rows, p).row)
    ensures Get(rows, p).DoesNotExist? <==> forall x :: x in rows ==> !p(x)
  {
    var hits := Filter(rows, p);
    assert |hits| > 0 ==> hits[0] in hits;
  }

  /** When exactly one row satisfies `p`, `get` finds it. */
  lemma {:induction false} GetUnique<T(!new)>(rows: seq<T>, p: T -> bool, i: nat)
    requires i < |rows| && p(rows[i])
    requires forall j :: 0 <= j < |rows| && j != i ==> !p(rows[j])
    ensures Get(rows, p) == Found(rows[i])
  {
    FilterSingle(rows, p, i);
  }

  lemma {:induction false} FilterSingle<T(!new)>(rows: seq<T>, p: T -> bool, i: nat)
    requires i < |rows| && p(rows[i])
    requires forall j :: 0 <= j < |rows| && j != i ==> !p(rows[j])
    ensures Filter(rows, p) == [rows[i]]
    decreases |rows|
  {
    if i == 0 {
      FilterNone(rows[1..], p);
    } else {
      assert !p(rows[0]);
      FilterSingle(rows[1..], p, i - 1);
    }
  }

  lemma {:induction false} FilterNone<T(!new)>(rows: seq<T>, p: T -> bool)
    requires forall j :: 0 <= j < |rows| ==> !p(rows[j])
    ensures Filter(rows, p) == []
    decreases |rows|
  {
    if rows != [] {
      FilterNone(rows[1..], p);
    }
  }

  /** Many-to-many `add`: adding a member already present changes nothing. */
  function AddMember(members: seq<nat>, id: nat): (r: seq<nat>)
    ensures id in r
    ensures forall x :: x in r <==> x in members || x == id
    ensures id in members ==> r == members
    ensures id !in members ==> |r| == |members| + 1
  {
    if id in members then members else members + [id]
  }

  /** Many-to-many `remove`. */
  function RemoveMember(members: seq<nat>, id: nat): (r: seq<nat>)
    ensures forall x :: x in r <==> x in members && x != id
  {
    if members == [] then []
    else (if members[0] == id then [] else [members[0]]) + RemoveMember(members[1..], id)
  }

  /** Removing the same member twice is removing it once. */
  lemma {:induction false} RemoveMemberTwice(members: seq<nat>, id: nat)
    ensures RemoveMember(RemoveMember(members, id), id) == RemoveMember(members, id)
    decreases |members|
  {
    if members != [] {
      RemoveMemberTwice(members[1..], id);
      var rest := RemoveMember(members[1..], id);
      if members[0] == id {
        assert RemoveMember(members, id) == rest;
      } else {
        assert RemoveMember(members, id) == [members[0]] + rest;
        assert ([members[0]] + rest)[1..] == rest;
      }
    }
  }

  predicate NoDuplicates(members: seq<nat>) {
    forall i, j :: 0 <= i < j < |members| ==> members[i] != members[j]
  }

  lemma AddMemberKeepsDistinct(members: seq<nat>, id: nat)
    requires NoDuplicates(members)
    ensures NoDuplicates(AddMember(members, id))
  {
  }

  // ----- the database -----

  function ObjectIds(rows: seq<ObjectRow>): set<nat> { set r | r in rows :: r.id }

  /** Two rows never share a key. */
  predicate UniqueBy<T, K(==)>(rows: seq<T>, key: T -> K) {
    forall i, j :: 0 <= i < j < |rows| ==> key(rows[i]) != key(rows[j])
  }

  /** Replacing a row by one with the same key keeps the keys unique. */
  lemma UniqueByUpdate<T, K>(rows: seq<T>, key: T -> K, i: nat, row: T)
    requires UniqueBy(rows, key) && i < |rows| && key(row) == key(rows[i])
    ensures UniqueBy(rows[i := row], key)
  {
    var updated := rows[i := row];
    forall a, b | 0 <= a < b < |updated|
      ensures key(updated[a]) != key(updated[b])
    {
      assert key(updated[a]) == key(rows[a]) && key(updated[b]) == key(rows[b]);
    }
  }

  /** Deleting a row keeps the keys unique. */
  lemma UniqueByRemove<T, K>(rows: seq<T>, key: T -> K, i: nat)
    requires UniqueBy(rows, key) && i < |rows|
    ensures UniqueBy(rows[..i] + rows[i + 1..], key)
  {
    var rest := rows[..i] + rows[i + 1..];
    forall a, b | 0 <= a < b < |rest|
      ensures key(rest[a]) != key(rest[b])
    {
      var a', b' := if a < i then a else a + 1, if b < i then b else b + 1;
      assert rest[a] == rows[a'] && rest[b] == rows[b'];
    }
  }

  /** Appending a row whose key is new keeps the keys unique. */
  lemma UniqueByAppend<T, K>(rows: seq<T>, key: T -> K, row: T)
    requires UniqueBy(rows, key)
    requires forall r :: r in rows ==> key(r) != key(row)
    ensures UniqueBy(rows + [row], key)
  {
    var longer := rows + [row];
    forall a, b | 0 <= a < b < |longer|
      ensures key(longer[a]) != key(longer[b])
    {
      if b == |rows| {
        assert longer[a] in rows;
      } else {
        assert longer[a] == rows[a] && longer[b] == rows[b];
      }
    }
  }

  /** Rows rewritten one for one without changing their keys keep the keys unique. */
  lemma UniqueByRekeyed<T, K>(rows: seq<T>, rows': seq<T>, key: T -> K)
    requires UniqueBy(rows, key) && |rows'| == |rows|
    requires forall i :: 0 <= i < |rows| ==> key(rows'[i]) == key(rows[i])
    ensures UniqueBy(rows', key)
  {
  }

  /** Rows filtered out of a table keep the remaining keys unique. */
  lemma {:induction false} UniqueByFilter<T(!new), K>(rows: seq<T>, key: T -> K, p: T -> bool)
    requires UniqueBy(rows, key)
    ensures UniqueBy(Filter(rows, p), key)
    decreases |rows|
  {
    if rows != [] {
      var rest := Filter(rows[1..], p);
      assert UniqueBy(rows[1..], key) by {
        forall a, b | 0 <= a < b < |rows[1..]|
          ensures key(rows[1..][a]) != key(rows[1..][b])
        {
          assert rows[1..][a] == rows[a + 1] && rows[1..][b] == rows[b + 1];
        }
      }
      UniqueByFilter(rows[1..], key, p);
      if p(rows[0]) {
        var hits := [rows[0]] + rest;
        forall a, b | 0 <= a < b < |hits|
          ensures key(hits[a]) != key(hits[b])
        {
          if a == 0 {
            assert hits[b] in rows[1..];
            var j :| 0 <= j < |rows[1..]| && rows[1..][j] == hits[b];
            assert rows[j + 1] == hits[b];
          } else {
            assert hits[a] == rest[a - 1] && hits[b] == rest[b - 1];
          }
        }
      }
    }
  }

  /** `obj.save()`: every row with the object's id is rewritten, nothing else. */
  function Saved(objects: seq<ObjectRow>, row: ObjectRow): (r: seq<ObjectRow>)
    ensures |r| == |objects|
    ensures forall k :: 0 <= k < |r| ==> r[k].id == objects[k].id
    ensures forall k :: 0 <= k < |r| ==> r[k] == (if objects[k].id == row.id then row else objects[k])
  {
    seq(|objects|, k requires 0 <= k < |objects| => if objects[k].id == row.id then row else objects[k])
  }

  function ObjectId(r: ObjectRow): nat { r.id }
  function ListKey(r: ObjectListRow): (string, string) { (r.name, r.userId) }
  function ConfigKey(r: ConfigRow): (string, int) { (r.instrument, r.version) }
  function ProjectKey(r: ProjectRow): (string, string) { (r.name, r.userId) }
  function MaskKey(r: MaskRow): (string, string) { (r.userId, r.name) }
  function MaskId(r: MaskRow): nat { r.id }

  function MaskIdIsNot(id: nat): MaskRow -> bool { (r: MaskRow) => r.id != id }

  /** Deleting a mask also drops it from every project's `masks` relation. */
  function WithoutMask(projects: seq<ProjectRow>, id: nat): (r: seq<ProjectRow>)
    ensures |r| == |projects|
    ensures forall k :: 0 <= k < |r| ==>
      && r[k].id == projects[k].id && r[k].name == projects[k].name && r[k].userId == projects[k].userId
      && (forall x :: x in r[k].masks <==> x in projects[k].masks && x != id)
  {
    seq(|projects|, k requires 0 <= k < |projects| => projects[k].(masks := RemoveMember(projects[k].masks, id)))
  }

  class Database {
    var objects: seq<ObjectRow>
    var lists: seq<ObjectListRow>
    var configs: seq<ConfigRow>
    var projects: seq<ProjectRow>
    var masks: seq<MaskRow>
    /** Every id handed out so far is below this one. */
    var nextId: nat

    /** The declared uniqueness constraints, and primary keys that are fresh and distinct. */
    ghost predicate Valid()
      reads this
    {
      && UniqueBy(objects, ObjectId)
      && (forall r :: r in objects ==> r.id < nextId)
      && UniqueBy(lists, ListKey)
      && (forall r :: r in lists ==> r.id < nextId)
      && UniqueBy(configs, ConfigKey)
      && UniqueBy(projects, ProjectKey)
      && UniqueBy(masks, MaskKey)
      && UniqueBy(masks, MaskId)
    }

    constructor Empty()
      ensures Valid()
      ensures objects == [] && lists == [] && configs == [] && projects == [] && masks == []
    {
      objects := [];
      lists := [];
      configs := [];
      projects := [];
      masks := [];
      nextId := 1;
    }

    /** `Object.objects.create(...)`: the row is stored under a fresh id. */
    method CreateObject(row: ObjectRow) returns (id: nat)
      modifies this
      ensures id == old(nextId) && nextId == old(nextId) + 1
      ensures objects == old(objects) + [row.(id := id)]
      ensures lists == old(lists) && configs == old(configs) && projects == old(projects) && masks == old(masks)
      ensures old(Valid()) ==> Valid()
    {
      id := nextId;
      if Valid() {
        UniqueByAppend(objects, ObjectId, row.(id := id));
      }
      objects := objects + [row.(id := id)];
      nextId := nextId + 1;
    }

    /** `ObjectList.objects.create(name=..., user_id=...)`: an empty list under a fresh id. */
    method CreateList(name: string, userId: string) returns (id: nat)
      modifies this
      ensures id == old(nextId) && nextId == old(nextId) + 1
      ensures lists == old(lists) + [ObjectListRow(id, name, userId, [])]
      ensures objects == old(objects) && configs == old(configs) && projects == old(projects) && masks == old(masks)
      ensures old(Valid()) && (forall l :: l in old(lists) ==> ListKey(l) != (name, userId)) ==> Valid()
    {
      id := nextId;
      if Valid() && forall l :: l in lists ==> ListKey(l) != (name, userId) {
        UniqueByAppend(lists, ListKey, ObjectListRow(id, name, userId, []));
      }
      lists := lists + [ObjectListRow(id, name, userId, [])];
      nextId := nextId + 1;
    }

    /** `obj_list.objects_list.add(obj)`. */
    method AddToList(l: nat, id: nat)
      requires l < |lists|
      modifies this
      ensures lists == old(lists)[l := old(lists[l]).(members := AddMember(old(lists[l].members), id))]
      ensures objects == old(objects) && configs == old(configs) && projects == old(projects)
      ensures masks == old(masks) && nextId == old(nextId)
      ensures old(Valid()) ==> Valid()
    {
      var updated := lists[l].(members := AddMember(lists[l].members, id));
      if Valid() {
        UniqueByUpdate(lists, ListKey, l, updated);
      }
      lists := lists[l := updated];
    }

    /** `obj.save()` on a fetched object: every row with its id is rewritten, nothing else. */
    method SaveObject(row: ObjectRow)
      modifies this
      ensures objects == Saved(old(objects), row)
      ensures lists == old(lists) && configs == old(configs) && projects == old(projects)
      ensures masks == old(masks) && nextId == old(nextId)
      ensures old(Valid()) ==> Valid()
    {
      ghost var objects0 := objects;
      objects := Saved(objects, row);
      if old(Valid()) {
        UniqueByRekeyed(objects0, objects, ObjectId);
        forall o | o in objects
          ensures o.id < nextId
        {
          var k :| 0 <= k < |objects| && objects[k] == o;
          assert objects0[k] in objects0;
        }
      }
    }

    /** `mask.delete()`: the mask's row goes, and so does every project's link to it. */
    method DeleteMask(id: nat)
      modifies this
      ensures masks == Filter(old(masks), MaskIdIsNot(id))
      ensures projects == WithoutMask(old(projects), id)
      ensures objects == old(objects) && lists == old(lists) && configs == old(configs) && nextId == old(nextId)
    {
      masks := Filter(masks, MaskIdIsNot(id));
      projects := WithoutMask(projects, id);
    }
  }
}
