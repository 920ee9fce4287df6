/** The one-line report a failing process prints, and why it can be read back. */
module ProcessReport {
  import opened Wrappers

  datatype Report = Report(code: string, message: string, fields: seq<(string, string)>)

  // No space, colon, control or non-ASCII character: a value made of these cannot be taken for the text around it.
  ghost predicate CleanChar(c: char) {
    ' ' < c < '\U{7F}' && c != ':'
  }

  ghost predicate Clean(value: string) {
    forall i :: 0 <= i < |value| ==> CleanChar(value[i])
  }

  function SanitizeChar(c: char): char {
    if '!' <= c <= '~' && c != ':' then c else '_'
  }

  function SanitizeField(value: string): (s: string)
    ensures |s| == |value| && Clean(s)
    ensures s == value <==> Clean(value)
    ensures forall i :: 0 <= i < |s| && s[i] != value[i] ==> s[i] == '_' && !CleanChar(value[i])
  {
    var s := seq(|value|, i requires 0 <= i < |value| => SanitizeChar(value[i]));
    assert forall i :: 0 <= i < |s| ==> s[i] == SanitizeChar(value[i]) && (s[i] == value[i] <==> CleanChar(value[i]));
    assert Clean(value) ==> s == value;
    s
  }

  /** Sanitising once is enough, and two values look alike only if they differ where one of them was not clean. */
  lemma SanitizingAgain(value: string, other: string)
    ensures SanitizeField(SanitizeField(value)) == SanitizeField(value)
    ensures SanitizeField(value) == SanitizeField(other) ==>
              |value| == |other| &&
              forall i :: 0 <= i < |value| && value[i] != other[i] ==> !CleanChar(value[i]) || !CleanChar(other[i])
  {
    if SanitizeField(value) == SanitizeField(other) {
      forall i | 0 <= i < |value| && value[i] != other[i]
        ensures !CleanChar(value[i]) || !CleanChar(other[i])
      {
        assert SanitizeField(value)[i] == SanitizeField(other)[i];
      }
    }
  }

  ghost function FieldText(field: (string, string)): string {
    " " + field.0 + "=" + SanitizeField(field.1)
  }

  ghost function FieldsText(fields: seq<(string, string)>): string {
    if fields == [] then [] else FieldText(fields[0]) + FieldsText(fields[1..])
  }

  ghost function Line(r: Report): string {
    r.code + FieldsText(r.fields) + ": " + r.message
  }

  method StderrLine(r: Report) returns (line: string)
    ensures line == Line(r)
  {
    line := r.code;
    var i := 0;
    while i < |r.fields|
      invariant 0 <= i <= |r.fields|
      invariant line + FieldsText(r.fields[i..]) == r.code + FieldsText(r.fields)
    {
      var (key, value) := r.fields[i];
      ghost var before := line;
      assert r.fields[i..][0] == r.fields[i] && r.fields[i..][1..] == r.fields[i + 1..];
      line := line + " ";
      line := line + key;
      line := line + "=";
      line := line + SanitizeField(value);
      assert line == before + FieldText(r.fields[i]);
      i := i + 1;
    }
    assert r.fields[i..] == [] && line + [] == line;
    line := line + ": ";
    line := line + r.message;
  }

  // ----- Reading a line back -----

  ghost function Until(s: string, stops: set<char>): (n: nat)
    ensures n <= |s| && (n < |s| ==> s[n] in stops) && forall k :: 0 <= k < n ==> s[k] !in stops
  {
    if s == [] || s[0] in stops then 0 else 1 + Until(s[1..], stops)
  }

  lemma {:induction false} UntilStop(a: string, b: string, stops: set<char>)
    requires b != [] && b[0] in stops && forall c :: c in a ==> c !in stops
    ensures Until(a + b, stops) == |a|
    decreases |a|
  {
    if a == [] {
      assert a + b == b;
    } else {
      assert (a + b)[1..] == a[1..] + b;
      UntilStop(a[1..], b, stops);
    }
  }

  datatype Parsed = Parsed(fields: seq<(string, string)>, message: string)

  // What follows the code: fields, each after a space, then a colon, a space and the message.
  ghost function ReadFields(s: string): Option<Parsed>
    decreases |s|
  {
    if |s| >= 2 && s[0] == ':' then Some(Parsed([], s[2..]))
    else if s == [] || s[0] != ' ' then None
    else
      var n := Until(s[1..], {'='});
      if n >= |s| - 1 then None
      else
        var rest := s[n + 2..];
        var m := Until(rest, {' ', ':'});
        var tail := ReadFields(rest[m..]);
        if tail.None? then None else Some(Parsed([(s[1..n + 1], rest[..m])] + tail.value.fields, tail.value.message))
  }

  ghost function ReadLine(line: string): Option<Report> {
    var n := Until(line, {' ', ':'});
    var tail := ReadFields(line[n..]);
    if tail.None? then None else Some(Report(line[..n], tail.value.message, tail.value.fields))
  }

  ghost function SanitizeAll(fields: seq<(string, string)>): seq<(string, string)> {
    if fields == [] then [] else [(fields[0].0, SanitizeField(fields[0].1))] + SanitizeAll(fields[1..])
  }

  ghost predicate PlainKeys(fields: seq<(string, string)>) {
    forall i :: 0 <= i < |fields| ==> '=' !in fields[i].0
  }

  lemma ReadOneField(key: string, value: string, rest: string)
    requires '=' !in key && ' ' !in value && ':' !in value && rest != [] && rest[0] in {' ', ':'}
    ensures var tail := ReadFields(rest);
            ReadFields(" " + key + "=" + value + rest) ==
            if tail.None? then None else Some(Parsed([(key, value)] + tail.value.fields, tail.value.message))
  {
    var s := " " + key + "=" + value + rest;
    assert s[1..] == key + ("=" + value + rest);
    UntilStop(key, "=" + value + rest, {'='});
    var n := |key|;
    assert s[1..n + 1] == key;
    assert s[n + 2..] == value + rest;
    UntilStop(value, rest, {' ', ':'});
    assert (value + rest)[|value|..] == rest && (value + rest)[..|value|] == value;
  }

  // What follows the code in a line.
  ghost function Rest(fields: seq<(string, string)>, message: string): string {
    FieldsText(fields) + ": " + message
  }

  lemma RestStarts(fields: seq<(string, string)>, message: string)
    ensures var rest := Rest(fields, message);
            |rest| >= 2 && rest[0] in {' ', ':'}
  {
  }

  lemma RestUnfolds(fields: seq<(string, string)>, message: string)
    requires fields != []
    ensures Rest(fields, message) == " " + fields[0].0 + "=" + SanitizeField(fields[0].1) + Rest(fields[1..], message)
  {
    var head, tail := FieldText(fields[0]), FieldsText(fields[1..]);
    assert (head + tail) + ": " + message == head + (tail + ": " + message);
  }

  lemma {:induction false} FieldsReadBack(fields: seq<(string, string)>, message: string)
    requires PlainKeys(fields)
    ensures ReadFields(Rest(fields, message)) == Some(Parsed(SanitizeAll(fields), message))
    decreases |fields|
  {
    if fields == [] {
      assert Rest(fields, message) == ": " + message;
      assert (": " + message)[2..] == message;
    } else {
      FieldsReadBack(fields[1..], message);
      RestStarts(fields[1..], message);
      RestUnfolds(fields, message);
      ReadOneField(fields[0].0, SanitizeField(fields[0].1), Rest(fields[1..], message));
    }
  }

  /** A line reads back as the code, the keys, the sanitised values and the message it was printed from. */
  lemma LineReadsBack(r: Report)
    requires ' ' !in r.code && ':' !in r.code && PlainKeys(r.fields)
    ensures ReadLine(Line(r)) == Some(Report(r.code, r.message, SanitizeAll(r.fields)))
  {
    var rest := Rest(r.fields, r.message);
    RestStarts(r.fields, r.message);
    assert Line(r) == r.code + rest;
    UntilStop(r.code, rest, {' ', ':'});
    assert (r.code + rest)[|r.code|..] == rest && (r.code + rest)[..|r.code|] == r.code;
    FieldsReadBack(r.fields, r.message);
  }

  /** So two reports with the same line agree on all of these, whatever their values and messages hold. */
  lemma LinesAreUnambiguous(r: Report, q: Report)
    requires ' ' !in r.code && ':' !in r.code && PlainKeys(r.fields)
    requires ' ' !in q.code && ':' !in q.code && PlainKeys(q.fields)
    requires Line(r) == Line(q)
    ensures r.code == q.code && r.message == q.message && SanitizeAll(r.fields) == SanitizeAll(q.fields)
  {
    LineReadsBack(r);
    LineReadsBack(q);
  }
}
