/**
 * The Carnegie `.obj` object-list format as the mask-generation API reads
 * and writes it: the line parser `obj_to_json` and the per-object line
 * writer of `generate_obj_file`.
 *
 * The object-line pattern
 *   name  ws  ra  ws  dec  ws  `Pri=` priority  [ ws `alen=` a  ws `blen=` b ]
 * (name: non-space characters; ra, a, b: digits and dots; dec, priority:
 * digits, dots and minus signs) is applied at the start of the line and is
 * written here as a tokenizer. Every run in the pattern is followed by a
 * character its own class excludes, so a shorter run can never lead to a
 * match: the regular-expression engine's backtracking has nothing to try, and
 * taking each run maximally gives exactly its match.
 */
module ObjFormat {
  import opened Wrappers
  import opened Text
  import opened PyText
  import opened Tables

  predicate IsDigitOrDot(c: char) { IsDigit(c) || c == '.' }

  predicate IsNumberChar(c: char) { IsDigit(c) || c == '.' || c == '-' }

  /** A non-empty run of characters of class `p`. */
  predicate IsToken(s: string, p: char -> bool) {
    |s| > 0 && forall i :: 0 <= i < |s| ==> p(s[i])
  }

  /** The longest prefix of `s` in class `p`, and what follows it. */
  function Take(s: string, p: char -> bool): (r: (string, string))
    ensures r.0 + r.1 == s
    ensures forall i :: 0 <= i < |r.0| ==> p(r.0[i])
    ensures r.1 == [] || !p(r.1[0])
  {
    var n := Run(s, p);
    assert s[..n] + s[n..] == s;
    (s[..n], s[n..])
  }

  /** A run followed by a character outside its class is taken whole. */
  lemma TakeConcat(a: string, b: string, p: char -> bool)
    requires forall i :: 0 <= i < |a| ==> p(a[i])
    requires b == [] || !p(b[0])
    ensures Take(a + b, p) == (a, b)
  {
    RunConcat(a, b, p);
    assert (a + b)[..|a|] == a;
    assert (a + b)[|a|..] == b;
  }

  // ----- the object-line pattern -----

  /** The text captured by each group of the object-line pattern. */
  datatype Fields = Fields(name: string, ra: string, dec: string, priority: string, lengths: Option<(string, string)>)

  /** The optional ` alen=a blen=b` group at the start of `s`. */
  function MatchLengths(s: string): (r: Option<(string, string)>)
    ensures r.Some? ==> IsToken(r.value.0, IsDigitOrDot) && IsToken(r.value.1, IsDigitOrDot)
  {
    var (gap1, r1) := Take(s, IsPySpace);
    if gap1 == [] || !StartsWith(r1, "alen=") then None
    else
      var (a, r2) := Take(r1[5..], IsDigitOrDot);
      var (gap2, r3) := Take(r2, IsPySpace);
      if a == [] || gap2 == [] || !StartsWith(r3, "blen=") then None
      else
        var (b, _) := Take(r3[5..], IsDigitOrDot);
        if b == [] then None else Some((a, b))
  }

  /** `re.match` of the object-line pattern on `line`; text after the match is ignored. */
  function MatchFields(line: string): (r: Option<Fields>)
    ensures r.Some? ==>
      && IsToken(r.value.name, IsNonSpace) && IsToken(r.value.ra, IsDigitOrDot)
      && IsToken(r.value.dec, IsNumberChar) && IsToken(r.value.priority, IsNumberChar)
      && StartsWith(line, r.value.name)
  {
    var (name, r1) := Take(line, IsNonSpace);
    var (gap, r2) := Take(r1, IsPySpace);
    assert line[..|name|] == name by { assert line == name + r1; }
    if name == [] || gap == [] then None else MatchCoordinates(name, r2)
  }

  /** The pattern after the name and its whitespace: ra, whitespace, then the rest. */
  function MatchCoordinates(name: string, s: string): (r: Option<Fields>)
    ensures r.Some? ==>
      && r.value.name == name && IsToken(r.value.ra, IsDigitOrDot)
      && IsToken(r.value.dec, IsNumberChar) && IsToken(r.value.priority, IsNumberChar)
  {
    var (ra, r1) := Take(s, IsDigitOrDot);
    var (gap, r2) := Take(r1, IsPySpace);
    if ra == [] || gap == [] then None else MatchDeclination(name, ra, r2)
  }

  /** The pattern after ra and its whitespace: dec, whitespace, then the priority. */
  function MatchDeclination(name: string, ra: string, s: string): (r: Option<Fields>)
    ensures r.Some? ==>
      && r.value.name == name && r.value.ra == ra
      && IsToken(r.value.dec, IsNumberChar) && IsToken(r.value.priority, IsNumberChar)
  {
    var (dec, r1) := Take(s, IsNumberChar);
    var (gap, r2) := Take(r1, IsPySpace);
    if dec == [] || gap == [] then None else MatchPriority(name, ra, dec, r2)
  }

  /** The pattern from `Pri=` on: the priority, then the optional lengths. */
  function MatchPriority(name: string, ra: string, dec: string, s: string): (r: Option<Fields>)
    ensures r.Some? ==>
      && r.value.name == name && r.value.ra == ra && r.value.dec == dec
      && IsToken(r.value.priority, IsNumberChar)
  {
    if !StartsWith(s, "Pri=") then None
    else
      var (priority, rest) := Take(s[4..], IsNumberChar);
      if priority == [] then None else Some(Fields(name, ra, dec, priority, MatchLengths(rest)))
  }

  // ----- parsing -----

  /** One object of the parsed list: `a_len`/`b_len` are present together or not at all. */
  datatype ObjRecord = ObjRecord(
    name: string, kind: string, ra: real, dec: real, priority: real, lengths: Option<(real, real)>)

  /** What one line contributes: nothing, an object, or the `ValueError` of `float()` on a token. */
  datatype LineOutcome = Skipped | Parsed(obj: ObjRecord) | NotANumber(token: string)

  /** Converts the captured groups in the order the source does: ra, dec, priority, then a_len, b_len. */
  function FieldsToRecord(f: Fields, kind: string): LineOutcome {
    var ra, dec, pri := PyFloat(f.ra), PyFloat(f.dec), PyFloat(f.priority);
    if ra.None? then NotANumber(f.ra)
    else if dec.None? then NotANumber(f.dec)
    else if pri.None? then NotANumber(f.priority)
    else
      match f.lengths
      case None => Parsed(ObjRecord(f.name, kind, ra.value, dec.value, pri.value, None))
      case Some((a, b)) =>
        var av, bv := PyFloat(a), PyFloat(b);
        if av.None? then NotANumber(a)
        else if bv.None? then NotANumber(b)
        else Parsed(ObjRecord(f.name, kind, ra.value, dec.value, pri.value, Some((av.value, bv.value))))
  }

  /** The type a line's marker stands for: `@` a target, `*` an alignment star. */
  function MarkerKind(marker: char): string {
    if marker == '@' then "TARGET" else "ALIGN"
  }

  /** One line of `obj_to_json`'s loop. */
  function ParseLine(raw: string): LineOutcome {
    var line := Strip(raw);
    if line == [] || (line[0] != '@' && line[0] != '*') then Skipped
    else
      match MatchFields(line[1..])
      case None => Skipped
      case Some(f) => FieldsToRecord(f, MarkerKind(line[0]))
  }

  /**
   * Blank lines, lines without a marker and marked lines the pattern does not
   * match are skipped. Otherwise the line is what converting the captured
   * groups gives: a parsed line has the type its marker says, the name the
   * pattern captured after the marker, the numbers `float()` reads from the
   * captured tokens, and lengths exactly when the optional group matched.
   */
  lemma ParseLineCases(raw: string)
    ensures var line := Strip(raw);
      && (line == [] || (line[0] != '@' && line[0] != '*') ==> ParseLine(raw).Skipped?)
      && (line != [] && (line[0] == '@' || line[0] == '*') && MatchFields(line[1..]).None? ==> ParseLine(raw).Skipped?)
      && (ParseLine(raw).Parsed? ==>
            && (line[0] == '@' || line[0] == '*')
            && ParseLine(raw).obj.kind == MarkerKind(line[0])
            && MatchFields(line[1..]).Some?
            && Converts(MatchFields(line[1..]).value, ParseLine(raw).obj))
  {
    var line := Strip(raw);
    if line != [] && (line[0] == '@' || line[0] == '*') && MatchFields(line[1..]).Some? {
      FieldsToRecordCases(MatchFields(line[1..]).value, MarkerKind(line[0]));
    }
  }

  /** `o` carries the captured name and the numbers `float()` reads from the captured tokens. */
  predicate Converts(f: Fields, o: ObjRecord) {
    && o.name == f.name
    && PyFloat(f.ra) == Some(o.ra) && PyFloat(f.dec) == Some(o.dec) && PyFloat(f.priority) == Some(o.priority)
    && (o.lengths.Some? <==> f.lengths.Some?)
    && (f.lengths.Some? ==>
          PyFloat(f.lengths.value.0) == Some(o.lengths.value.0) && PyFloat(f.lengths.value.1) == Some(o.lengths.value.1))
  }

  /**
   * Conversion succeeds exactly when every captured token reads as a number,
   * and then keeps the captured name, the given type and the numbers read;
   * otherwise it reports a token that `float()` refuses.
   */
  lemma FieldsToRecordCases(f: Fields, kind: string)
    ensures FieldsToRecord(f, kind).Parsed? <==>
      && PyFloat(f.ra).Some? && PyFloat(f.dec).Some? && PyFloat(f.priority).Some?
      && (f.lengths.Some? ==> PyFloat(f.lengths.value.0).Some? && PyFloat(f.lengths.value.1).Some?)
    ensures FieldsToRecord(f, kind).Parsed? ==>
      FieldsToRecord(f, kind).obj.kind == kind && Converts(f, FieldsToRecord(f, kind).obj)
    ensures FieldsToRecord(f, kind).NotANumber? ==> PyFloat(FieldsToRecord(f, kind).token).None?
  {
  }

  /** The results of the lines, in order, stopping at the first error. */
  function Collect(lines: seq<string>, parse: string -> LineOutcome): Result<seq<ObjRecord>, string>
    decreases |lines|
  {
    if lines == [] then Ok([])
    else
      match Collect(lines[..|lines| - 1], parse)
      case Err(token) => Err(token)
      case Ok(objs) =>
        match parse(lines[|lines| - 1])
        case Skipped => Ok(objs)
        case Parsed(o) => Ok(objs + [o])
        case NotANumber(token) => Err(token)
  }

  /** `obj_to_json` on a list of lines; `Err(token)` is the `ValueError` that aborts it. */
  function ParseLines(lines: seq<string>): Result<seq<ObjRecord>, string> {
    Collect(lines, ParseLine)
  }

  /** `obj_to_json` on decoded text. */
  function ObjToJsonSpec(text: string): Result<seq<ObjRecord>, string> {
    ParseLines(SplitLines(text))
  }

  /** The results of consecutive blocks of lines, joined; the first error wins. */
  function Combine(x: Result<seq<ObjRecord>, string>, y: Result<seq<ObjRecord>, string>): Result<seq<ObjRecord>, string> {
    match x
    case Err(t) => Err(t)
    case Ok(xs) =>
      match y
      case Err(t) => Err(t)
      case Ok(ys) => Ok(xs + ys)
  }

  lemma {:induction false} CollectAppend(a: seq<string>, b: seq<string>, parse: string -> LineOutcome)
    ensures Collect(a + b, parse) == Combine(Collect(a, parse), Collect(b, parse))
    decreases |b|
  {
    if b == [] {
      assert a + b == a;
      match Collect(a, parse)
      case Err(_) =>
      case Ok(xs) => assert xs + [] == xs;
    } else {
      var front := b[..|b| - 1];
      CollectAppend(a, front, parse);
      assert (a + b)[..|a + b| - 1] == a + front;
      assert (a + b)[|a + b| - 1] == b[|b| - 1];
      match Collect(a, parse)
      case Err(_) =>
      case Ok(xs) =>
        match Collect(front, parse)
        case Err(_) =>
        case Ok(ys) =>
          match parse(b[|b| - 1])
          case Skipped =>
          case NotANumber(_) =>
          case Parsed(o) => assert xs + (ys + [o]) == (xs + ys) + [o];
    }
  }

  /** One more line after a prefix that parsed to `objs`. */
  lemma CollectStep(lines: seq<string>, i: nat, parse: string -> LineOutcome, objs: seq<ObjRecord>)
    requires i < |lines| && Collect(lines[..i], parse) == Ok(objs)
    ensures Collect(lines[..i + 1], parse) ==
      match parse(lines[i])
      case Skipped => Ok(objs)
      case Parsed(o) => Ok(objs + [o])
      case NotANumber(token) => Err(token)
  {
    assert lines[..i + 1][..i] == lines[..i];
  }

  /** Lines are parsed independently and in order: the output for `a + b` is that of `a` followed by that of `b`. */
  lemma ParseLinesAppend(a: seq<string>, b: seq<string>)
    ensures ParseLines(a + b) == Combine(ParseLines(a), ParseLines(b))
  {
    CollectAppend(a, b, ParseLine);
  }

  lemma {:induction false} CollectBound(lines: seq<string>, parse: string -> LineOutcome)
    ensures Collect(lines, parse).Ok? ==> |Collect(lines, parse).value| <= |lines|
    decreases |lines|
  {
    if lines != [] {
      CollectBound(lines[..|lines| - 1], parse);
    }
  }

  /** Every object comes from its own line, so there are never more objects than lines. */
  lemma ParseLinesBound(lines: seq<string>)
    ensures ParseLines(lines).Ok? ==> |ParseLines(lines).value| <= |lines|
  {
    CollectBound(lines, ParseLine);
  }

  /** A line that is blank, unmarked or not matching contributes nothing. */
  lemma SkippedLineIsDropped(lines: seq<string>, line: string)
    requires ParseLine(line).Skipped?
    ensures ParseLines(lines + [line]) == ParseLines(lines)
  {
    assert (lines + [line])[..|lines|] == lines;
  }

  /** `obj_to_json`: the loop over the lines of the text. */
  method ObjToJson(text: string) returns (r: Result<seq<ObjRecord>, string>)
    ensures r == ObjToJsonSpec(text)
  {
    var lines := SplitLines(text);
    var objects := [];
    var i := 0;
    while i < |lines|
      invariant 0 <= i <= |lines|
      invariant ParseLines(lines[..i]) == Ok(objects)
    {
      var outcome := ParseLine(lines[i]);
      CollectStep(lines, i, ParseLine, objects);
      match outcome {
        case Skipped =>
          assert ParseLines(lines[..i + 1]) == Ok(objects);
        case Parsed(o) =>
          assert ParseLines(lines[..i + 1]) == Ok(objects + [o]);
          objects := objects + [o];
        case NotANumber(token) =>
          assert ParseLines(lines[..i + 1]) == Err(token);
          FirstErrorStays(lines, i + 1);
          return Err(token);
      }
      i := i + 1;
    }
    assert lines[..i] == lines;
    return Ok(objects);
  }

  /** Once a prefix has failed, the whole text fails with the same token. */
  lemma FirstErrorStays(lines: seq<string>, n: nat)
    requires n <= |lines| && ParseLines(lines[..n]).Err?
    ensures ParseLines(lines) == ParseLines(lines[..n])
  {
    ParseLinesAppend(lines[..n], lines[n..]);
    assert lines[..n] + lines[n..] == lines;
  }

  // ----- writing -----

  /** The first line of every written file: coordinates are in degrees. */
  const Header := "&RADEGREE"

  /** Largest magnitude up to which every integer is exactly a float. */
  const MaxExactFloatInt := 9007199254740992

  /**
   * Python's `str(float(p))` for an integer priority: the digits and `.0`
   * while the value is exact, otherwise whatever `show` prints for it.
   */
  function PriorityText(p: int, show: real -> string): string {
    if -MaxExactFloatInt <= p <= MaxExactFloatInt then IntText(p) + ".0" else show(p as real)
  }

  /** The marker put in front of a written line: `*` for ALIGN, `@` for TARGET, none otherwise. */
  function KindPrefix(kind: string): string {
    if kind == "ALIGN" then "*" else if kind == "TARGET" then "@" else ""
  }

  /**
   * The line `generate_obj_file` writes for one non-guide object; `show` is
   * Python's `str` of a float. The extra-field suffixes of the source test
   * `hasattr` on a decoded JSON value, which has none of those attributes,
   * so they never add anything.
   */
  function ObjLine(o: ObjectRow, show: real -> string): string {
    KindPrefix(o.kind) + FieldsText(o, show)
  }

  /** The line before its marker is put in front: name, coordinates and priority. */
  function FieldsText(o: ObjectRow, show: real -> string): string {
    o.name + " " + show(o.ra) + " " + show(o.dec) + " Pri=" + PriorityText(o.priority, show)
  }

  /** The lines written for `rows` by `line`, in order; guide stars get no line. */
  function WrittenLines(rows: seq<ObjectRow>, line: ObjectRow -> string): (lines: seq<string>)
    ensures |lines| <= |rows|
    decreases |rows|
  {
    if rows == [] then []
    else
      var o := rows[|rows| - 1];
      WrittenLines(rows[..|rows| - 1], line) + (if o.kind != "GUIDE" then [line(o)] else [])
  }

  /** The lines `generate_obj_file` writes after the header. */
  function ObjLines(rows: seq<ObjectRow>, show: real -> string): seq<string> {
    WrittenLines(rows, (o: ObjectRow) => ObjLine(o, show))
  }

  /** The text of `lines` each ended by a newline, as successive `write`s produce it. */
  function Join(lines: seq<string>): string
    decreases |lines|
  {
    if lines == [] then "" else lines[0] + "\n" + Join(lines[1..])
  }

  lemma {:induction false} JoinAppend(lines: seq<string>, line: string)
    ensures Join(lines + [line]) == Join(lines) + line + "\n"
    decreases |lines|
  {
    if lines == [] {
      assert [] + [line] == [line];
      assert [line][1..] == [];
    } else {
      assert (lines + [line])[0] == lines[0];
      assert (lines + [line])[1..] == lines[1..] + [line];
      JoinAppend(lines[1..], line);
    }
  }

  /** Writing lines without line breaks and splitting the text gives the lines back. */
  lemma {:induction false} SplitLinesJoin(lines: seq<string>)
    requires forall i :: 0 <= i < |lines| ==> NoLineBreak(lines[i])
    ensures SplitLines(Join(lines)) == lines
    decreases |lines|
  {
    if lines != [] {
      SplitLinesCons(lines[0], Join(lines[1..]));
      SplitLinesJoin(lines[1..]);
    }
  }

  /** The whole file for `rows`: the header, then one line per non-guide object. */
  function ObjFileText(rows: seq<ObjectRow>, show: real -> string): string {
    Join([Header] + ObjLines(rows, show))
  }

  /** How `generate_obj_file` is given its objects: a list of ids, or the name of an object list. */
  datatype Selection = SelectedIds(ids: seq<nat>) | ListName(name: string)

  /** How writing ends: normally, or at the `get` that raised. */
  datatype WriteOutcome = Complete | ListNotFound | ListAmbiguous | ObjectNotFound(id: nat) | ObjectAmbiguous(id: nat)

  /** The `get` conditions of the writer: an object by id, a list by name. */
  function HasId(id: nat): ObjectRow -> bool { (o: ObjectRow) => o.id == id }
  function ListNamed(name: string): ObjectListRow -> bool { (l: ObjectListRow) => l.name == name }

  /** The ids to write: the given ones, or the members of the one list with that name. */
  function SelectedObjectIds(lists: seq<ObjectListRow>, selection: Selection): Result<seq<nat>, WriteOutcome> {
    match selection
    case SelectedIds(ids) => Ok(ids)
    case ListName(name) =>
      match Get(lists, ListNamed(name))
      case Found(l) => Ok(l.members)
      case DoesNotExist => Err(ListNotFound)
      case MultipleReturned => Err(ListAmbiguous)
  }

  /** The objects fetched for `ids` in order, up to the first id that is not found exactly once. */
  function LookUpObjects(objects: seq<ObjectRow>, ids: seq<nat>): (r: (seq<ObjectRow>, WriteOutcome))
    decreases |ids|
  {
    if ids == [] then ([], Complete)
    else
      var front := ids[..|ids| - 1];
      var id := ids[|ids| - 1];
      var (rows, outcome) := LookUpObjects(objects, front);
      if outcome != Complete then (rows, outcome)
      else
        match Get(objects, HasId(id))
        case Found(o) => (rows + [o], Complete)
        case DoesNotExist => (rows, ObjectNotFound(id))
        case MultipleReturned => (rows, ObjectAmbiguous(id))
  }

  /**
   * The fetched objects come from the table and carry the requested ids, in
   * order; the lookup is complete exactly when every id was fetched, and
   * otherwise it names the first id that was not found exactly once.
   */
  lemma {:induction false} LookUpObjectsFacts(objects: seq<ObjectRow>, ids: seq<nat>)
    ensures var (rows, outcome) := LookUpObjects(objects, ids);
      && |rows| <= |ids|
      && (forall k :: 0 <= k < |rows| ==> rows[k] in objects && rows[k].id == ids[k])
      && (outcome == Complete <==> |rows| == |ids|)
      && (outcome != Complete ==> outcome == ObjectNotFound(ids[|rows|]) || outcome == ObjectAmbiguous(ids[|rows|]))
    decreases |ids|
  {
    if ids != [] {
      var front := ids[..|ids| - 1];
      LookUpObjectsFacts(objects, front);
      var (rows, outcome) := LookUpObjects(objects, front);
      if outcome == Complete {
        var id := ids[|ids| - 1];
        GetFacts(objects, HasId(id));
        match Get(objects, HasId(id))
        case Found(o) =>
          assert forall k :: 0 <= k < |rows| ==> (rows + [o])[k] == rows[k];
        case DoesNotExist =>
        case MultipleReturned =>
      }
    }
  }

  /** After the first failed lookup nothing more is fetched. */
  lemma {:induction false} LookUpStops(objects: seq<ObjectRow>, ids: seq<nat>, n: nat)
    requires n <= |ids| && LookUpObjects(objects, ids[..n]).1 != Complete
    ensures LookUpObjects(objects, ids) == LookUpObjects(objects, ids[..n])
    decreases |ids| - n
  {
    if n < |ids| {
      assert ids[..n + 1][..n] == ids[..n];
      LookUpStops(objects, ids, n + 1);
    } else {
      assert ids[..n] == ids;
    }
  }

  /** With nothing fetched only the header is written. */
  lemma ObjFileTextEmpty(show: real -> string)
    ensures ObjFileText([], show) == Header + "\n"
  {
    assert [Header] + ObjLines([], show) == [Header];
    assert [Header][1..] == [];
    assert Join([Header]) == Header + "\n" + "";
  }

  /** One more fetched object adds its line, or nothing for a guide star. */
  lemma ObjFileTextStep(rows: seq<ObjectRow>, o: ObjectRow, show: real -> string)
    ensures ObjFileText(rows + [o], show)
      == ObjFileText(rows, show) + (if o.kind != "GUIDE" then ObjLine(o, show) + "\n" else "")
  {
    assert (rows + [o])[..|rows|] == rows;
    if o.kind != "GUIDE" {
      JoinAppend([Header] + ObjLines(rows, show), ObjLine(o, show));
      assert [Header] + ObjLines(rows + [o], show) == [Header] + ObjLines(rows, show) + [ObjLine(o, show)];
    } else {
      assert ObjLines(rows + [o], show) == ObjLines(rows, show) + [];
      assert ObjLines(rows, show) + [] == ObjLines(rows, show);
      assert ObjFileText(rows, show) + "" == ObjFileText(rows, show);
    }
  }

  /** One more id extends a complete lookup by what `get` returns for it. */
  lemma LookUpStep(objects: seq<ObjectRow>, ids: seq<nat>, i: nat, rows: seq<ObjectRow>)
    requires i < |ids| && LookUpObjects(objects, ids[..i]) == (rows, Complete)
    ensures LookUpObjects(objects, ids[..i + 1]) == match Get(objects, HasId(ids[i]))
      case Found(o) => (rows + [o], Complete)
      case DoesNotExist => (rows, ObjectNotFound(ids[i]))
      case MultipleReturned => (rows, ObjectAmbiguous(ids[i]))
  {
    assert ids[..i + 1][..i] == ids[..i];
  }

  /** What writing `ids` leaves in the file, and how it ends. */
  function WrittenFile(objects: seq<ObjectRow>, ids: seq<nat>, show: real -> string): (string, WriteOutcome) {
    var (rows, outcome) := LookUpObjects(objects, ids);
    (ObjFileText(rows, show), outcome)
  }

  lemma WrittenFileStart(objects: seq<ObjectRow>, ids: seq<nat>, show: real -> string)
    ensures WrittenFile(objects, ids[..0], show) == (Header + "\n", Complete)
  {
    assert ids[..0] == [];
    ObjFileTextEmpty(show);
  }

  /** One more id: its line is appended, or writing stops at it. */
  lemma WrittenFileStep(objects: seq<ObjectRow>, ids: seq<nat>, i: nat, show: real -> string, written: string)
    requires i < |ids| && WrittenFile(objects, ids[..i], show) == (written, Complete)
    ensures WrittenFile(objects, ids[..i + 1], show) == match Get(objects, HasId(ids[i]))
      case Found(o) => (if o.kind != "GUIDE" then written + ObjLine(o, show) + "\n" else written, Complete)
      case DoesNotExist => (written, ObjectNotFound(ids[i]))
      case MultipleReturned => (written, ObjectAmbiguous(ids[i]))
  {
    var rows := LookUpObjects(objects, ids[..i]).0;
    LookUpStep(objects, ids, i, rows);
    match Get(objects, HasId(ids[i]))
    case Found(o) =>
      ObjFileTextStep(rows, o, show);
      if o.kind == "GUIDE" {
        assert written + "" == written;
      } else {
        assert written + (ObjLine(o, show) + "\n") == written + ObjLine(o, show) + "\n";
      }
    case DoesNotExist =>
    case MultipleReturned =>
  }

  lemma WrittenFileStops(objects: seq<ObjectRow>, ids: seq<nat>, n: nat, show: real -> string)
    requires n <= |ids| && WrittenFile(objects, ids[..n], show).1 != Complete
    ensures WrittenFile(objects, ids, show) == WrittenFile(objects, ids[..n], show)
  {
    LookUpStops(objects, ids, n);
  }

  /** The loop of `generate_obj_file`: fetch each id in turn and write its line. */
  method WriteObjects(objects: seq<ObjectRow>, ids: seq<nat>, show: real -> string)
    returns (written: string, outcome: WriteOutcome)
    ensures (written, outcome) == WrittenFile(objects, ids, show)
  {
    written := Header + "\n";
    WrittenFileStart(objects, ids, show);
    var i := 0;
    while i < |ids|
      invariant 0 <= i <= |ids|
      invariant WrittenFile(objects, ids[..i], show) == (written, Complete)
    {
      WrittenFileStep(objects, ids, i, show, written);
      match Get(objects, HasId(ids[i])) {
        case Found(o) =>
          if o.kind != "GUIDE" {
            written := written + ObjLine(o, show) + "\n";
          }
        case DoesNotExist =>
          WrittenFileStops(objects, ids, i + 1, show);
          return written, ObjectNotFound(ids[i]);
        case MultipleReturned =>
          WrittenFileStops(objects, ids, i + 1, show);
          return written, ObjectAmbiguous(ids[i]);
      }
      i := i + 1;
    }
    assert ids[..i] == ids;
    outcome := Complete;
  }

  /**
   * `generate_obj_file` without the file system: the text written, and how
   * it ended. A failed `get` raises after the lines before it have been
   * written.
   */
  method GenerateObjText(objects: seq<ObjectRow>, lists: seq<ObjectListRow>, selection: Selection, show: real -> string)
    returns (written: string, outcome: WriteOutcome)
    ensures match SelectedObjectIds(lists, selection)
      case Err(e) => written == Header + "\n" && outcome == e
      case Ok(ids) => (written, outcome) == WrittenFile(objects, ids, show)
  {
    var selected := SelectedObjectIds(lists, selection);
    if selected.Err? {
      return Header + "\n", selected.error;
    }
    written, outcome := WriteObjects(objects, selected.value, show);
  }

  // ----- writing, then reading back -----

  /** What the parser returns for the written line of a non-guide object. */
  function AsRecord(o: ObjectRow): ObjRecord {
    ObjRecord(o.name, o.kind, o.ra, o.dec, o.priority as real, None)
  }

  /** The records expected back from the file written for `rows`: one per non-guide object, in order. */
  function Records(rows: seq<ObjectRow>): seq<ObjRecord>
    decreases |rows|
  {
    if rows == [] then []
    else
      var o := rows[|rows| - 1];
      Records(rows[..|rows| - 1]) + (if o.kind != "GUIDE" then [AsRecord(o)] else [])
  }

  /**
   * An object whose written line the parser reads back: one of the three
   * types, and, unless it is a guide star (which is not written), a name
   * without spaces, coordinates that `str` prints as plain decimals of the
   * shapes the pattern accepts, and a priority that is exact as a float.
   */
  predicate Writable(o: ObjectRow, show: real -> string) {
    && (o.kind == "GUIDE" || o.kind == "ALIGN" || o.kind == "TARGET")
    && (o.kind != "GUIDE" ==>
          && IsToken(o.name, IsNonSpace)
          && IsToken(show(o.ra), IsDigitOrDot) && PyFloat(show(o.ra)) == Some(o.ra)
          && IsToken(show(o.dec), IsNumberChar) && PyFloat(show(o.dec)) == Some(o.dec)
          && -MaxExactFloatInt <= o.priority <= MaxExactFloatInt)
  }

  /** An exact priority is written as a number token that reads back as itself. */
  lemma PriorityTextReads(p: int, show: real -> string)
    requires -MaxExactFloatInt <= p <= MaxExactFloatInt
    ensures IsToken(PriorityText(p, show), IsNumberChar)
    ensures PyFloat(PriorityText(p, show)) == Some(p as real)
  {
    IntPointChars(p);
    PyFloatIntPoint(p);
  }

  /** Nothing after the priority: the optional lengths group does not match. */
  lemma MatchLengthsEmpty()
    ensures MatchLengths("") == None
  {
    var (gap, _) := Take("", IsPySpace);
    assert gap == [];
  }

  lemma MatchPriorityWritten(name: string, ra: string, dec: string, pri: string, t: string)
    requires IsToken(pri, IsNumberChar)
    requires t == [] || !IsNumberChar(t[0])
    ensures MatchPriority(name, ra, dec, "Pri=" + pri + t) == Some(Fields(name, ra, dec, pri, MatchLengths(t)))
  {
    assert StartsWith("Pri=" + pri + t, "Pri=") && ("Pri=" + pri + t)[4..] == pri + t;
    TakeConcat(pri, t, IsNumberChar);
  }

  lemma MatchDeclinationWritten(name: string, ra: string, dec: string, pri: string, t: string)
    requires IsToken(dec, IsNumberChar) && IsToken(pri, IsNumberChar)
    requires t == [] || !IsNumberChar(t[0])
    ensures MatchDeclination(name, ra, dec + " Pri=" + pri + t) == Some(Fields(name, ra, dec, pri, MatchLengths(t)))
  {
    var r2 := "Pri=" + pri + t;
    var r1 := " " + r2;
    assert dec + " Pri=" + pri + t == dec + r1;
    TakeConcat(dec, r1, IsNumberChar);
    TakeConcat(" ", r2, IsPySpace);
    assert MatchDeclination(name, ra, dec + r1) == MatchPriority(name, ra, dec, r2);
    MatchPriorityWritten(name, ra, dec, pri, t);
  }

  lemma MatchCoordinatesWritten(name: string, ra: string, dec: string, pri: string, t: string)
    requires IsToken(ra, IsDigitOrDot) && IsToken(dec, IsNumberChar) && IsToken(pri, IsNumberChar)
    requires t == [] || !IsNumberChar(t[0])
    ensures MatchCoordinates(name, ra + " " + dec + " Pri=" + pri + t) == Some(Fields(name, ra, dec, pri, MatchLengths(t)))
  {
    var r2 := dec + " Pri=" + pri + t;
    var r1 := " " + r2;
    assert ra + " " + dec + " Pri=" + pri + t == ra + r1;
    TakeConcat(ra, r1, IsDigitOrDot);
    assert r2[0] == dec[0];
    TakeConcat(" ", r2, IsPySpace);
    assert MatchCoordinates(name, ra + r1) == MatchDeclination(name, ra, r2);
    MatchDeclinationWritten(name, ra, dec, pri, t);
  }

  /**
   * A line made of the four fields separated by single spaces, `Pri=` before
   * the priority, and then any text that cannot continue the priority, matches
   * with exactly those fields; the lengths are whatever the optional group
   * finds in that text.
   */
  lemma MatchFieldsTail(name: string, ra: string, dec: string, pri: string, t: string)
    requires IsToken(name, IsNonSpace) && IsToken(ra, IsDigitOrDot)
    requires IsToken(dec, IsNumberChar) && IsToken(pri, IsNumberChar)
    requires t == [] || !IsNumberChar(t[0])
    ensures MatchFields(name + " " + ra + " " + dec + " Pri=" + pri + t) == Some(Fields(name, ra, dec, pri, MatchLengths(t)))
  {
    var r2 := ra + " " + dec + " Pri=" + pri + t;
    var r1 := " " + r2;
    assert name + " " + ra + " " + dec + " Pri=" + pri + t == name + r1;
    TakeConcat(name, r1, IsNonSpace);
    assert r2[0] == ra[0];
    TakeConcat(" ", r2, IsPySpace);
    assert MatchFields(name + r1) == MatchCoordinates(name, r2);
    MatchCoordinatesWritten(name, ra, dec, pri, t);
  }

  /** The written fields of a line match the pattern as they were written, without lengths. */
  lemma MatchWritten(name: string, ra: string, dec: string, pri: string)
    requires IsToken(name, IsNonSpace) && IsToken(ra, IsDigitOrDot)
    requires IsToken(dec, IsNumberChar) && IsToken(pri, IsNumberChar)
    ensures MatchFields(name + " " + ra + " " + dec + " Pri=" + pri) == Some(Fields(name, ra, dec, pri, None))
  {
    MatchFieldsTail(name, ra, dec, pri, "");
    assert name + " " + ra + " " + dec + " Pri=" + pri + "" == name + " " + ra + " " + dec + " Pri=" + pri;
    MatchLengthsEmpty();
  }

  /** A stripped marked line whose text after the marker matches is converted with the marker's type. */
  lemma ParseMarked(line: string, f: Fields)
    requires |line| > 0 && (line[0] == '@' || line[0] == '*') && Strip(line) == line
    requires MatchFields(line[1..]) == Some(f)
    ensures ParseLine(line) == FieldsToRecord(f, MarkerKind(line[0]))
  {
  }

  /** The written fields convert back to the object's own values. */
  lemma FieldsToRecordWritten(o: ObjectRow, show: real -> string)
    requires Writable(o, show) && o.kind != "GUIDE"
    ensures FieldsToRecord(Fields(o.name, show(o.ra), show(o.dec), PriorityText(o.priority, show), None), o.kind)
      == Parsed(AsRecord(o))
  {
    PriorityTextReads(o.priority, show);
  }

  /** A written line has no leading or trailing whitespace. */
  lemma ObjLineStripped(o: ObjectRow, show: real -> string)
    requires Writable(o, show) && o.kind != "GUIDE"
    ensures Strip(ObjLine(o, show)) == ObjLine(o, show)
  {
    var pri := PriorityText(o.priority, show);
    IntPointChars(o.priority);
    var line := ObjLine(o, show);
    assert line[|line| - 1] == pri[|pri| - 1];
    assert line[0] == '*' || line[0] == '@';
    TrimUnpadded(line, IsPySpace);
  }

  /** The line written for an object parses to that object. */
  lemma ParseObjLine(o: ObjectRow, show: real -> string)
    requires Writable(o, show) && o.kind != "GUIDE"
    ensures ParseLine(ObjLine(o, show)) == Parsed(AsRecord(o))
  {
    var line := ObjLine(o, show);
    ObjLineStripped(o, show);
    assert line[1..] == FieldsText(o, show);
    var pri := PriorityText(o.priority, show);
    PriorityTextReads(o.priority, show);
    MatchWritten(o.name, show(o.ra), show(o.dec), pri);
    ParseMarked(line, Fields(o.name, show(o.ra), show(o.dec), pri, None));
    FieldsToRecordWritten(o, show);
  }

  /** Every line break is a space, so a string without spaces has no line break. */
  lemma BreaksAreSpaces(c: char)
    requires IsLineBreak(c)
    ensures IsPySpace(c)
  {
  }

  lemma NoLineBreakConcat(a: string, b: string)
    requires NoLineBreak(a) && NoLineBreak(b)
    ensures NoLineBreak(a + b)
  {
    assert forall i :: |a| <= i < |a + b| ==> (a + b)[i] == b[i - |a|];
  }

  /** Text without spaces has no line break either. */
  lemma NonSpaceNoBreak(t: string, p: char -> bool)
    requires IsToken(t, p) && forall c :: p(c) ==> IsNonSpace(c)
    ensures NoLineBreak(t)
  {
    forall i | 0 <= i < |t|
      ensures !IsLineBreak(t[i])
    {
      if IsLineBreak(t[i]) {
        BreaksAreSpaces(t[i]);
      }
    }
  }

  /** Fields without line breaks, joined by spaces and `Pri=`, have none either. */
  lemma JoinedFieldsNoBreak(name: string, ra: string, dec: string, pri: string)
    requires NoLineBreak(name) && NoLineBreak(ra) && NoLineBreak(dec) && NoLineBreak(pri)
    ensures NoLineBreak(name + " " + ra + " " + dec + " Pri=" + pri)
  {
    var s1 := name + " ";
    NoLineBreakConcat(name, " ");
    var s2 := s1 + ra;
    NoLineBreakConcat(s1, ra);
    var s3 := s2 + " ";
    NoLineBreakConcat(s2, " ");
    var s4 := s3 + dec;
    NoLineBreakConcat(s3, dec);
    var s5 := s4 + " Pri=";
    NoLineBreakConcat(s4, " Pri=");
    NoLineBreakConcat(s5, pri);
  }

  /** A written line has no line break in it. */
  lemma ObjLineNoBreak(o: ObjectRow, show: real -> string)
    requires Writable(o, show) && o.kind != "GUIDE"
    ensures NoLineBreak(ObjLine(o, show))
  {
    var pri := PriorityText(o.priority, show);
    PriorityTextReads(o.priority, show);
    NonSpaceNoBreak(o.name, IsNonSpace);
    NonSpaceNoBreak(show(o.ra), IsDigitOrDot);
    NonSpaceNoBreak(show(o.dec), IsNumberChar);
    NonSpaceNoBreak(pri, IsNumberChar);
    JoinedFieldsNoBreak(o.name, show(o.ra), show(o.dec), pri);
    NoLineBreakConcat(KindPrefix(o.kind), FieldsText(o, show));
  }

  lemma {:induction false} WrittenLinesNoBreak(rows: seq<ObjectRow>, line: ObjectRow -> string)
    requires forall k :: 0 <= k < |rows| && rows[k].kind != "GUIDE" ==> NoLineBreak(line(rows[k]))
    ensures forall i :: 0 <= i < |WrittenLines(rows, line)| ==> NoLineBreak(WrittenLines(rows, line)[i])
    decreases |rows|
  {
    if rows != [] {
      WrittenLinesNoBreak(rows[..|rows| - 1], line);
    }
  }

  lemma ObjLinesNoBreak(rows: seq<ObjectRow>, show: real -> string)
    requires forall k :: 0 <= k < |rows| ==> Writable(rows[k], show)
    ensures forall i :: 0 <= i < |ObjLines(rows, show)| ==> NoLineBreak(ObjLines(rows, show)[i])
  {
    forall k | 0 <= k < |rows| && rows[k].kind != "GUIDE"
      ensures NoLineBreak(ObjLine(rows[k], show))
    {
      ObjLineNoBreak(rows[k], show);
    }
    WrittenLinesNoBreak(rows, (o: ObjectRow) => ObjLine(o, show));
  }

  /** The header line is skipped by the parser. */
  lemma HeaderSkipped()
    ensures ParseLine(Header).Skipped?
  {
    TrimUnpadded(Header, IsPySpace);
  }

  /** A line that parses to an object appends it to what the lines before gave. */
  lemma CollectSnoc(before: seq<string>, line: string, parse: string -> LineOutcome, objs: seq<ObjRecord>, r: ObjRecord)
    requires Collect(before, parse) == Ok(objs) && parse(line) == Parsed(r)
    ensures Collect(before + [line], parse) == Ok(objs + [r])
  {
    assert (before + [line])[..|before|] == before;
  }

  /** A line that is skipped adds nothing. */
  lemma CollectSkip(before: seq<string>, line: string, parse: string -> LineOutcome)
    requires parse(line).Skipped?
    ensures Collect(before + [line], parse) == Collect(before, parse)
  {
    assert (before + [line])[..|before|] == before;
  }

  /**
   * A skipped first line followed by the lines `line` writes, where each of
   * those parses back to its object, gives back the records.
   */
  lemma {:induction false} CollectWritten(
    head: string, rows: seq<ObjectRow>, line: ObjectRow -> string, parse: string -> LineOutcome)
    requires parse(head).Skipped?
    requires forall k :: 0 <= k < |rows| && rows[k].kind != "GUIDE" ==> parse(line(rows[k])) == Parsed(AsRecord(rows[k]))
    ensures Collect([head] + WrittenLines(rows, line), parse) == Ok(Records(rows))
    decreases |rows|
  {
    if rows == [] {
      CollectSkip([], head, parse);
      assert [head] + WrittenLines(rows, line) == [] + [head];
    } else {
      var front := rows[..|rows| - 1];
      var o := rows[|rows| - 1];
      CollectWritten(head, front, line, parse);
      var before := [head] + WrittenLines(front, line);
      if o.kind != "GUIDE" {
        CollectSnoc(before, line(o), parse, Records(front), AsRecord(o));
        assert [head] + WrittenLines(rows, line) == before + [line(o)];
      } else {
        assert WrittenLines(rows, line) == WrittenLines(front, line) + [];
        assert [head] + WrittenLines(rows, line) == before;
        assert Records(rows) == Records(front) + [] == Records(front);
      }
    }
  }

  /** The header followed by the written lines parses to the records. */
  lemma ParseWrittenLines(rows: seq<ObjectRow>, show: real -> string)
    requires forall k :: 0 <= k < |rows| ==> Writable(rows[k], show)
    ensures ParseLines([Header] + ObjLines(rows, show)) == Ok(Records(rows))
  {
    HeaderSkipped();
    forall k | 0 <= k < |rows| && rows[k].kind != "GUIDE"
      ensures ParseLine(ObjLine(rows[k], show)) == Parsed(AsRecord(rows[k]))
    {
      ParseObjLine(rows[k], show);
    }
    CollectWritten(Header, rows, (o: ObjectRow) => ObjLine(o, show), ParseLine);
  }

  /**
   * Reading back a written file gives one record per non-guide object, in
   * order, with the name, type, coordinates and priority written.
   */
  lemma WriteThenRead(rows: seq<ObjectRow>, show: real -> string)
    requires forall k :: 0 <= k < |rows| ==> Writable(rows[k], show)
    ensures ObjToJsonSpec(ObjFileText(rows, show)) == Ok(Records(rows))
  {
    HeaderNoBreak();
    ObjLinesNoBreak(rows, show);
    SplitJoinedLines(Header, ObjLines(rows, show));
    ParseWrittenLines(rows, show);
  }

  lemma HeaderNoBreak()
    ensures NoLineBreak(Header)
  {
  }

  /** A first line and further lines, none with a line break, are split back apart. */
  lemma SplitJoinedLines(head: string, rest: seq<string>)
    requires NoLineBreak(head)
    requires forall i :: 0 <= i < |rest| ==> NoLineBreak(rest[i])
    ensures SplitLines(Join([head] + rest)) == [head] + rest
  {
    var lines := [head] + rest;
    assert lines[0] == head && lines[1..] == rest;
    assert Join(lines) == head + "\n" + Join(rest);
    SplitLinesCons(head, Join(rest));
    SplitLinesJoin(rest);
  }
}
