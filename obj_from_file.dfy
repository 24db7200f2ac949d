/**
 * The older `.obj` reader `parse_obj_file` of the mask service, written for
 * files where each object takes two lines: only lines 0, 2, 4, ... are
 * looked at, only `@` lines count, and the slit lengths are part of the
 * required pattern. Its records carry no type.
 */
module ObjFromFile {
  import opened Wrappers
  import opened Text
  import opened PyText
  import opened ObjFormat

  /** One object of the result: exactly the six keys the reader writes. */
  datatype StrideRecord = StrideRecord(name: string, ra: real, dec: real, priority: real, aLen: real, bLen: real)

  datatype HeaderOutcome = NoObject | Read(obj: StrideRecord) | BadNumber(token: string)

  /**
   * The fields of a stripped `@` line. The pattern here has ` alen=a blen=b`
   * required; every run of the pattern is maximal, so the required group is
   * tried at the same place as the optional one and matches exactly when it does.
   */
  function HeaderFields(raw: string): Option<Fields> {
    var header := Strip(raw);
    if |header| == 0 || header[0] != '@' then None
    else MatchFields(header[1..])
  }

  /** The six values of a matched header, converted in the order the record is built. */
  function ReadFields(f: Fields): HeaderOutcome {
    match f.lengths
    case None => NoObject
    case Some((a, b)) =>
      var ra, dec, pri, av, bv := PyFloat(f.ra), PyFloat(f.dec), PyFloat(f.priority), PyFloat(a), PyFloat(b);
      if ra.None? then BadNumber(f.ra)
      else if dec.None? then BadNumber(f.dec)
      else if pri.None? then BadNumber(f.priority)
      else if av.None? then BadNumber(a)
      else if bv.None? then BadNumber(b)
      else Read(StrideRecord(f.name, ra.value, dec.value, pri.value, av.value, bv.value))
  }

  /** One examined line of the loop. */
  function ReadHeader(raw: string): HeaderOutcome {
    match HeaderFields(raw)
    case None => NoObject
    case Some(f) => ReadFields(f)
  }

  /** An alignment star, an unmarked line or a header without lengths gives no object. */
  lemma ReadHeaderSkips(raw: string)
    ensures var header := Strip(raw);
      (|header| == 0 || header[0] != '@') ==> ReadHeader(raw) == NoObject
    ensures var header := Strip(raw);
      (|header| > 0 && header[0] == '@' && MatchFields(header[1..]).Some? && MatchFields(header[1..]).value.lengths.None?)
      ==> ReadHeader(raw) == NoObject
  {
  }

  /** Fields read here convert as the line parser converts them for a target. */
  lemma ReadFieldsAgrees(f: Fields)
    requires ReadFields(f).Read?
    ensures var r := ReadFields(f).obj;
      FieldsToRecord(f, "TARGET") == Parsed(ObjRecord(r.name, "TARGET", r.ra, r.dec, r.priority, Some((r.aLen, r.bLen))))
  {
  }

  /**
   * A header this reader accepts is read by the line parser as the same
   * object, as a target, with its lengths.
   */
  lemma ReadHeaderAgrees(raw: string)
    requires ReadHeader(raw).Read?
    ensures var r := ReadHeader(raw).obj;
      ParseLine(raw) == Parsed(ObjRecord(r.name, "TARGET", r.ra, r.dec, r.priority, Some((r.aLen, r.bLen))))
  {
    var header := Strip(raw);
    var f := HeaderFields(raw).value;
    assert header[0] == '@' && MatchFields(header[1..]) == Some(f);
    assert MarkerKind(header[0]) == "TARGET";
    ReadFieldsAgrees(f);
  }

  /** The lines the loop looks at: those at even indices. */
  function EvenLines(lines: seq<string>): (even: seq<string>)
    ensures |even| == (|lines| + 1) / 2
    ensures forall k :: 0 <= k < |even| ==> even[k] == lines[2 * k]
  {
    seq((|lines| + 1) / 2, k requires 0 <= k < (|lines| + 1) / 2 => lines[2 * k])
  }

  /** The records of the examined lines, in order, stopping at the first bad number. */
  function ReadAll(headers: seq<string>, read: string -> HeaderOutcome): Result<seq<StrideRecord>, string>
    decreases |headers|
  {
    if headers == [] then Ok([])
    else
      match ReadAll(headers[..|headers| - 1], read)
      case Err(token) => Err(token)
      case Ok(objs) =>
        match read(headers[|headers| - 1])
        case NoObject => Ok(objs)
        case Read(o) => Ok(objs + [o])
        case BadNumber(token) => Err(token)
  }

  /** `parse_obj_file` on the lines of the file. */
  function ReadSpec(lines: seq<string>): Result<seq<StrideRecord>, string> {
    ReadAll(EvenLines(lines), ReadHeader)
  }

  lemma ReadAllStep(headers: seq<string>, read: string -> HeaderOutcome, i: nat, objs: seq<StrideRecord>)
    requires i < |headers| && ReadAll(headers[..i], read) == Ok(objs)
    ensures ReadAll(headers[..i + 1], read) ==
      match read(headers[i])
      case NoObject => Ok(objs)
      case Read(o) => Ok(objs + [o])
      case BadNumber(token) => Err(token)
  {
    assert headers[..i + 1][..i] == headers[..i];
  }

  lemma {:induction false} ReadAllStops(headers: seq<string>, read: string -> HeaderOutcome, n: nat)
    requires n <= |headers| && ReadAll(headers[..n], read).Err?
    ensures ReadAll(headers, read) == ReadAll(headers[..n], read)
    decreases |headers| - n
  {
    if n < |headers| {
      assert headers[..n + 1][..n] == headers[..n];
      ReadAllStops(headers, read, n + 1);
    } else {
      assert headers[..n] == headers;
    }
  }

  /** Whatever stands on an odd line, the result is the same: those lines are never parsed. */
  lemma OddLinesIgnored(lines: seq<string>, k: nat, line: string)
    requires k < |lines| && k % 2 == 1
    ensures ReadSpec(lines[k := line]) == ReadSpec(lines)
  {
    assert EvenLines(lines[k := line]) == EvenLines(lines);
  }

  lemma {:induction false} ReadAllBound(headers: seq<string>, read: string -> HeaderOutcome)
    ensures ReadAll(headers, read).Ok? ==> |ReadAll(headers, read).value| <= |headers|
    decreases |headers|
  {
    if headers != [] {
      ReadAllBound(headers[..|headers| - 1], read);
    }
  }

  /** At most one object per two lines. */
  lemma ReadSpecBound(lines: seq<string>)
    ensures ReadSpec(lines).Ok? ==> |ReadSpec(lines).value| <= (|lines| + 1) / 2
  {
    ReadAllBound(EvenLines(lines), ReadHeader);
  }

  /** `parse_obj_file` on the lines of the text. */
  method ParseObjFile(text: string) returns (r: Result<seq<StrideRecord>, string>)
    ensures r == ReadSpec(SplitLines(text))
  {
    r := ReadLines(SplitLines(text), ReadHeader);
  }

  /** The stride-2 loop: lines 0, 2, 4, ... are given to `read`, the others passed over. */
  method ReadLines(lines: seq<string>, read: string -> HeaderOutcome) returns (r: Result<seq<StrideRecord>, string>)
    ensures r == ReadAll(EvenLines(lines), read)
  {
    ghost var headers := EvenLines(lines);
    var objects := [];
    var i := 0;
    ghost var k := 0;
    while i < |lines|
      invariant i == 2 * k && k <= |headers|
      invariant ReadAll(headers[..k], read) == Ok(objects)
    {
      assert k < |headers| && headers[k] == lines[i];
      ReadAllStep(headers, read, k, objects);
      var outcome := read(lines[i]);
      match outcome {
        case NoObject =>
        case Read(o) =>
          objects := objects + [o];
        case BadNumber(token) =>
          ReadAllStops(headers, read, k + 1);
          return Err(token);
      }
      i, k := i + 2, k + 1;
    }
    assert k == |headers| && headers[..k] == headers;
    return Ok(objects);
  }
}
