/**
 * `categorize_objs`: reading a `.obw` file back after mask generation and
 * sorting the objects it names onto the mask's two object relations: an
 * object whose line carries a use count (`Use=` and digits) is on the mask,
 * any other named object is left out of it. The first name no object has
 * deletes the mask and ends the scan with a warning.
 */
module ObwCategorize {
  import opened Wrappers
  import opened Text
  import opened PyText
  import opened Tables

  // ----- the two patterns -----

  /** `re.match(r"[@\*](\S+)", line)`: the name after a leading marker, up to the first space. */
  function MarkedName(line: string): Option<string> {
    if |line| >= 1 && (line[0] == '@' || line[0] == '*') then
      var n := Run(line[1..], IsNonSpace);
      if n == 0 then None else Some(line[1..1 + n])
    else None
  }

  /**
   * A line names an object exactly when it starts with a marker followed by
   * a non-space character; the name is then the whole run of non-space
   * characters after the marker.
   */
  lemma MarkedNameCases(line: string)
    ensures MarkedName(line).Some? <==> |line| >= 2 && (line[0] == '@' || line[0] == '*') && IsNonSpace(line[1])
    ensures MarkedName(line).Some? ==>
      var name := MarkedName(line).value;
      && 1 + |name| <= |line| && line[1..1 + |name|] == name
      && (forall i :: 1 <= i <= |name| ==> IsNonSpace(line[i]))
      && (1 + |name| == |line| || IsPySpace(line[1 + |name|]))
  {
    if |line| >= 1 && (line[0] == '@' || line[0] == '*') {
      var rest := line[1..];
      var n := Run(rest, IsNonSpace);
      assert forall i :: 0 <= i < |rest| ==> rest[i] == line[i + 1];
      if |line| >= 2 && IsNonSpace(line[1]) {
        assert n >= 1;
      }
    }
  }

  /** `Use=` followed by a digit starts at index `i`. */
  predicate UseAt(line: string, i: int) {
    0 <= i && i + 5 <= |line| && line[i..i + 4] == "Use=" && IsDigit(line[i + 4])
  }

  /** `re.search(r"Use=\d+", line)`, scanning from the left as the search does. */
  predicate HasUseCount(line: string)
    decreases |line|
  {
    |line| >= 5 && (UseAt(line, 0) || HasUseCount(line[1..]))
  }

  /** The scan finds a use count exactly when one starts somewhere in the line. */
  lemma {:induction false} HasUseCountIff(line: string)
    ensures HasUseCount(line) <==> exists i :: UseAt(line, i)
    decreases |line|
  {
    if |line| >= 5 {
      HasUseCountIff(line[1..]);
      forall i | UseAt(line[1..], i)
        ensures UseAt(line, i + 1)
      {
        assert line[1..][i..i + 4] == line[i + 1..i + 5];
      }
      forall i | UseAt(line, i) && i >= 1
        ensures UseAt(line[1..], i - 1)
      {
        assert line[1..][i - 1..i + 3] == line[i..i + 4];
      }
    } else {
      forall i | UseAt(line, i)
        ensures false
      {
      }
    }
  }

  // ----- the scan -----

  /** Why the scan ended early: a name no object has, or one held by several objects. */
  datatype Stop = Running | Missing(name: string) | Ambiguous(name: string)

  /** The mask's two relations as the scan has left them, and whether it has stopped. */
  datatype Sorting = Sorting(included: seq<nat>, excluded: seq<nat>, stop: Stop)

  /** The `get(name=...)` condition; names are looked up across all users. */
  function Named(name: string): ObjectRow -> bool { (o: ObjectRow) => o.name == name }

  /** One line of the loop. */
  function SortLine(s: Sorting, objects: seq<ObjectRow>, line: string): Sorting {
    if !s.stop.Running? then s
    else
      match MarkedName(line)
      case None => s
      case Some(name) =>
        match Get(objects, Named(name))
        case Found(o) =>
          if HasUseCount(line) then s.(included := AddMember(s.included, o.id))
          else s.(excluded := AddMember(s.excluded, o.id))
        case DoesNotExist => s.(stop := Missing(name))
        case MultipleReturned => s.(stop := Ambiguous(name))
  }

  /** The loop over `lines`, from the mask's relations as they were. */
  function SortLines(objects: seq<ObjectRow>, lines: seq<string>, start: Sorting): Sorting
    decreases |lines|
  {
    if lines == [] then start
    else SortLine(SortLines(objects, lines[..|lines| - 1], start), objects, lines[|lines| - 1])
  }

  lemma SortLinesStep(objects: seq<ObjectRow>, lines: seq<string>, i: nat, start: Sorting)
    requires i < |lines|
    ensures SortLines(objects, lines[..i + 1], start) == SortLine(SortLines(objects, lines[..i], start), objects, lines[i])
  {
    assert lines[..i + 1][..i] == lines[..i];
  }

  /** Once the scan has stopped, the remaining lines change nothing. */
  lemma {:induction false} SortLinesStops(objects: seq<ObjectRow>, lines: seq<string>, n: nat, start: Sorting)
    requires n <= |lines| && !SortLines(objects, lines[..n], start).stop.Running?
    ensures SortLines(objects, lines, start) == SortLines(objects, lines[..n], start)
    decreases |lines| - n
  {
    if n < |lines| {
      SortLinesStep(objects, lines, n, start);
      SortLinesStops(objects, lines, n + 1, start);
    } else {
      assert lines[..n] == lines;
    }
  }

  /**
   * A marked line naming exactly one object puts that object on the mask
   * when the line has a use count, and leaves it out otherwise.
   */
  lemma SortLineFound(s: Sorting, objects: seq<ObjectRow>, line: string, o: ObjectRow)
    requires s.stop.Running? && MarkedName(line).Some?
    requires Get(objects, Named(MarkedName(line).value)) == Found(o)
    ensures var r := SortLine(s, objects, line);
      && r.stop.Running?
      && o in objects && o.name == MarkedName(line).value
      && (HasUseCount(line) ==> r.included == AddMember(s.included, o.id) && r.excluded == s.excluded)
      && (!HasUseCount(line) ==> r.excluded == AddMember(s.excluded, o.id) && r.included == s.included)
      && o.id in (if HasUseCount(line) then r.included else r.excluded)
  {
    GetFacts(objects, Named(MarkedName(line).value));
  }

  /** The ids the scan adds are ids of objects in the table. */
  lemma {:induction false} SortLinesAddsObjects(objects: seq<ObjectRow>, lines: seq<string>, start: Sorting)
    ensures var r := SortLines(objects, lines, start);
      && (forall x :: x in r.included ==> x in start.included || x in ObjectIds(objects))
      && (forall x :: x in r.excluded ==> x in start.excluded || x in ObjectIds(objects))
    decreases |lines|
  {
    if lines != [] {
      var before := SortLines(objects, lines[..|lines| - 1], start);
      SortLinesAddsObjects(objects, lines[..|lines| - 1], start);
      var line := lines[|lines| - 1];
      if before.stop.Running? && MarkedName(line).Some? {
        GetFacts(objects, Named(MarkedName(line).value));
      }
    }
  }

  /** A line never takes an id off either relation. */
  lemma SortLineKeeps(s: Sorting, objects: seq<ObjectRow>, line: string)
    ensures var r := SortLine(s, objects, line);
      && (forall x :: x in s.included ==> x in r.included)
      && (forall x :: x in s.excluded ==> x in r.excluded)
  {
  }

  /**
   * The whole scan, when it runs to the end, puts every object named by a
   * line on the mask when that line has a use count, and leaves it out
   * otherwise.
   */
  lemma {:induction false} SortLinesPlaces(objects: seq<ObjectRow>, lines: seq<string>, start: Sorting, k: nat, o: ObjectRow)
    requires start.stop.Running? && k < |lines|
    requires SortLines(objects, lines, start).stop.Running?
    requires MarkedName(lines[k]).Some? && Get(objects, Named(MarkedName(lines[k]).value)) == Found(o)
    ensures var r := SortLines(objects, lines, start);
      o.id in (if HasUseCount(lines[k]) then r.included else r.excluded)
    decreases |lines|
  {
    var front, line := lines[..|lines| - 1], lines[|lines| - 1];
    var before := SortLines(objects, front, start);
    assert SortLine(before, objects, line).stop.Running?;
    assert before.stop.Running?;
    if k == |lines| - 1 {
      SortLineFound(before, objects, line, o);
    } else {
      assert lines[k] == front[k];
      SortLinesPlaces(objects, front, start, k, o);
      SortLineKeeps(before, objects, line);
    }
  }

  /** The line puts the object with id `x` on the mask (`use`) or leaves it out (`!use`). */
  predicate Places(objects: seq<ObjectRow>, line: string, x: nat, use: bool) {
    && MarkedName(line).Some?
    && Get(objects, Named(MarkedName(line).value)).Found?
    && Get(objects, Named(MarkedName(line).value)).row.id == x
    && HasUseCount(line) == use
  }

  /** Some line among `lines` places `x` so. */
  predicate PlacedBy(objects: seq<ObjectRow>, lines: seq<string>, x: nat, use: bool) {
    exists k :: 0 <= k < |lines| && Places(objects, lines[k], x, use)
  }

  /**
   * Conversely, every id the scan adds to a relation comes from a line
   * naming exactly one object with that id, with a use count for the mask's
   * objects and without one for the excluded ones.
   */
  lemma {:induction false} SortLinesProvenance(objects: seq<ObjectRow>, lines: seq<string>, start: Sorting)
    ensures var r := SortLines(objects, lines, start);
      && (forall x :: x in r.included && x !in start.included ==> PlacedBy(objects, lines, x, true))
      && (forall x :: x in r.excluded && x !in start.excluded ==> PlacedBy(objects, lines, x, false))
    decreases |lines|
  {
    if lines != [] {
      var front, line := lines[..|lines| - 1], lines[|lines| - 1];
      var before := SortLines(objects, front, start);
      var r := SortLine(before, objects, line);
      SortLinesProvenance(objects, front, start);
      forall x, use | (if use then x in r.included && x !in start.included else x in r.excluded && x !in start.excluded)
        ensures PlacedBy(objects, lines, x, use)
      {
        if (if use then x in before.included else x in before.excluded) {
          var k :| 0 <= k < |front| && Places(objects, front[k], x, use);
          assert lines[k] == front[k];
        } else {
          assert Places(objects, lines[|lines| - 1], x, use);
        }
      }
    }
  }

  /** Every marked line among the first `k` names exactly one object. */
  predicate FoundBefore(objects: seq<ObjectRow>, lines: seq<string>, k: nat)
    requires k <= |lines|
  {
    forall j :: 0 <= j < k && MarkedName(lines[j]).Some? ==> Get(objects, Named(MarkedName(lines[j]).value)).Found?
  }

  /** A scan that has not stopped has found exactly one object for every name it read. */
  lemma {:induction false} RunningFoundAll(objects: seq<ObjectRow>, lines: seq<string>, start: Sorting)
    requires start.stop.Running?
    ensures SortLines(objects, lines, start).stop.Running? ==> FoundBefore(objects, lines, |lines|)
    decreases |lines|
  {
    if lines != [] && SortLines(objects, lines, start).stop.Running? {
      var front, line := lines[..|lines| - 1], lines[|lines| - 1];
      var before := SortLines(objects, front, start);
      assert SortLine(before, objects, line).stop.Running?;
      assert before.stop.Running?;
      assert MarkedName(line).Some? ==> Get(objects, Named(MarkedName(line).value)).Found?;
      RunningFoundAll(objects, front, start);
      FoundBeforeSnoc(objects, lines);
    }
  }

  lemma FoundBeforeSnoc(objects: seq<ObjectRow>, lines: seq<string>)
    requires lines != [] && FoundBefore(objects, lines[..|lines| - 1], |lines| - 1)
    requires MarkedName(lines[|lines| - 1]).Some? ==> Get(objects, Named(MarkedName(lines[|lines| - 1]).value)).Found?
    ensures FoundBefore(objects, lines, |lines|)
  {
    var front := lines[..|lines| - 1];
    forall j | 0 <= j < |lines| && MarkedName(lines[j]).Some?
      ensures Get(objects, Named(MarkedName(lines[j]).value)).Found?
    {
      if j < |front| {
        assert lines[j] == front[j];
      }
    }
  }

  /**
   * A scan that stops on a missing name stops on the first line naming no
   * single object: every marked line before it names exactly one object, it
   * names the missing name, and no object has that name.
   */
  lemma {:induction false} MissingNameIsUnknown(objects: seq<ObjectRow>, lines: seq<string>, start: Sorting)
    requires start.stop.Running?
    ensures var r := SortLines(objects, lines, start);
      r.stop.Missing? ==>
        && (exists k :: 0 <= k < |lines| && MarkedName(lines[k]) == Some(r.stop.name) && FoundBefore(objects, lines, k))
        && (forall o :: o in objects ==> o.name != r.stop.name)
    decreases |lines|
  {
    if lines != [] {
      var front := lines[..|lines| - 1];
      var before := SortLines(objects, front, start);
      MissingNameIsUnknown(objects, front, start);
      var line := lines[|lines| - 1];
      if before.stop.Missing? {
        var k :| 0 <= k < |front| && MarkedName(front[k]) == Some(before.stop.name) && FoundBefore(objects, front, k);
        assert lines[k] == front[k];
        assert forall j :: 0 <= j < k ==> lines[j] == front[j];
        assert FoundBefore(objects, lines, k);
      } else if before.stop.Running? && MarkedName(line).Some? {
        GetFacts(objects, Named(MarkedName(line).value));
        if SortLine(before, objects, line).stop.Missing? {
          RunningFoundAll(objects, front, start);
          assert forall j :: 0 <= j < |front| ==> lines[j] == front[j];
          assert FoundBefore(objects, lines, |front|);
          assert MarkedName(lines[|lines| - 1]) == Some(SortLine(before, objects, line).stop.name);
        }
      }
    }
  }

  // ----- the mask and its project -----

  const Success := "yay it worked"

  function MissingWarning(name: string): string {
    "warning: object with name '" + name + "' not found."
  }

  /** What `categorize_objs` returns, or the `MultipleObjectsReturned` it lets escape. */
  datatype Reply = Reply(ok: bool, message: string) | RaisedMultiple(name: string)

  /** The mask row with the relations the scan produced. */
  function Sorted(mask: MaskRow, s: Sorting): MaskRow {
    mask.(objectsList := s.included, excluded := s.excluded)
  }

  /** The scan starts from the mask's relations as they are. */
  function Start(mask: MaskRow): Sorting {
    Sorting(mask.objectsList, mask.excluded, Running)
  }

  /**
   * The masks and projects tables after `categorize_objs` on the mask at
   * index `m`, and its reply: the scan's relations are kept unless a name
   * was missing, in which case the mask is gone.
   */
  function Categorized(objects: seq<ObjectRow>, masks: seq<MaskRow>, projects: seq<ProjectRow>, m: nat, lines: seq<string>)
    : (seq<MaskRow>, seq<ProjectRow>, Reply)
    requires m < |masks|
  {
    var s := SortLines(objects, lines, Start(masks[m]));
    match s.stop
    case Running => (masks[m := Sorted(masks[m], s)], projects, Reply(true, Success))
    case Missing(name) => (Filter(masks, MaskIdIsNot(masks[m].id)), WithoutMask(projects, masks[m].id), Reply(false, MissingWarning(name)))
    case Ambiguous(name) => (masks[m := Sorted(masks[m], s)], projects, RaisedMultiple(name))
  }

  /** `categorize_objs` keeps mask names per user, mask ids and project names per user unique. */
  lemma CategorizedKeepsUnique(objects: seq<ObjectRow>, masks: seq<MaskRow>, projects: seq<ProjectRow>, m: nat, lines: seq<string>)
    requires m < |masks| && UniqueBy(masks, MaskKey) && UniqueBy(masks, MaskId) && UniqueBy(projects, ProjectKey)
    ensures var (masks', projects', _) := Categorized(objects, masks, projects, m, lines);
      UniqueBy(masks', MaskKey) && UniqueBy(masks', MaskId) && UniqueBy(projects', ProjectKey)
  {
    var s := SortLines(objects, lines, Start(masks[m]));
    if s.stop.Missing? {
      UniqueByFilter(masks, MaskKey, MaskIdIsNot(masks[m].id));
      UniqueByFilter(masks, MaskId, MaskIdIsNot(masks[m].id));
      UniqueByRekeyed(projects, WithoutMask(projects, masks[m].id), ProjectKey);
    } else {
      UniqueByUpdate(masks, MaskKey, m, Sorted(masks[m], s));
      UniqueByUpdate(masks, MaskId, m, Sorted(masks[m], s));
    }
  }

  /** `mask.objects_list.add(obj)` or `mask.excluded_obj_list.add(obj)`, saved at once. */
  method AddToMask(db: Database, m: nat, id: nat, included: bool)
    requires m < |db.masks|
    modifies db
    ensures db.masks == old(db.masks)[m := if included
      then old(db.masks[m]).(objectsList := AddMember(old(db.masks[m].objectsList), id))
      else old(db.masks[m]).(excluded := AddMember(old(db.masks[m].excluded), id))]
    ensures db.objects == old(db.objects) && db.lists == old(db.lists) && db.projects == old(db.projects)
    ensures db.configs == old(db.configs) && db.nextId == old(db.nextId)
  {
    if included {
      db.masks := db.masks[m := db.masks[m].(objectsList := AddMember(db.masks[m].objectsList, id))];
    } else {
      db.masks := db.masks[m := db.masks[m].(excluded := AddMember(db.masks[m].excluded, id))];
    }
  }

  /**
   * `categorize_objs` on the mask at index `m`, with the file's text
   * already read. Each `add` is written to the mask at once, so a scan
   * ended by an ambiguous name keeps the adds made before it.
   */
  method CategorizeObjs(db: Database, m: nat, text: string) returns (reply: Reply)
    requires m < |db.masks|
    modifies db
    ensures (db.masks, db.projects, reply) == Categorized(old(db.objects), old(db.masks), old(db.projects), m, SplitLines(text))
    ensures db.objects == old(db.objects) && db.lists == old(db.lists)
    ensures db.configs == old(db.configs) && db.nextId == old(db.nextId)
    ensures old(db.Valid()) ==> db.Valid()
  {
    var lines := SplitLines(text);
    var objects := db.objects;
    ghost var masks0, projects0 := db.masks, db.projects;
    ghost var valid0 := db.Valid();
    var start := Start(db.masks[m]);
    var stop: Stop := Running;
    var i := 0;
    while i < |lines| && stop.Running?
      invariant 0 <= i <= |lines|
      invariant stop == SortLines(objects, lines[..i], start).stop
      invariant db.masks == masks0[m := Sorted(masks0[m], SortLines(objects, lines[..i], start))]
      invariant db.objects == objects && db.lists == old(db.lists) && db.projects == projects0
      invariant db.configs == old(db.configs) && db.nextId == old(db.nextId)
    {
      SortLinesStep(objects, lines, i, start);
      ghost var s := SortLines(objects, lines[..i], start);
      var name := MarkedName(lines[i]);
      if name.Some? {
        match Get(objects, Named(name.value)) {
          case Found(o) =>
            AddToMask(db, m, o.id, HasUseCount(lines[i]));
            assert SortLines(objects, lines[..i + 1], start) ==
              if HasUseCount(lines[i]) then s.(included := AddMember(s.included, o.id))
              else s.(excluded := AddMember(s.excluded, o.id));
          case DoesNotExist => stop := Missing(name.value);
          case MultipleReturned => stop := Ambiguous(name.value);
        }
      }
      i := i + 1;
    }
    if stop.Running? {
      assert lines[..i] == lines;
    } else {
      SortLinesStops(objects, lines, i, start);
    }
    match stop {
      case Running => reply := Reply(true, Success);
      case Missing(name) =>
        FilterDropsUpdate(masks0, MaskIdIsNot(masks0[m].id), m, db.masks[m]);
        db.DeleteMask(db.masks[m].id);
        reply := Reply(false, MissingWarning(name));
      case Ambiguous(name) => reply := RaisedMultiple(name);
    }
    if valid0 {
      CategorizedKeepsUnique(objects, masks0, projects0, m, lines);
    }
  }
}
