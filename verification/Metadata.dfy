/**
 * The volume record and its `meta.json` text (pkg/lib/parser.go, and the marshalling in
 * pkg/server/hostpath_commands.go).
 */
module Metadata {
  import opened Wrappers
  import opened Json
  import opened FileSystem

  const TWO_64 := 0x1_0000_0000_0000_0000

  type UInt64 = n: nat | n < TWO_64

  /** The stored record; `tags` is None for Go's nil slice. */
  datatype Vol = Vol(
    name: string, size: UInt64, tags: Option<seq<string>>, vgName: string,
    status: string, snapshotName: string, cloneName: string)

  const ZERO_VOL := Vol("", 0, None, "", "", "", "")

  /** The record of a complete volume: every record the store writes has this form. */
  function Record(vg: string, name: string, size: UInt64): Vol {
    Vol(name, size, None, vg, "ok", "", "")
  }

  // ---------------------------------------------------------------------------------------------
  // Decimal numbers
  // ---------------------------------------------------------------------------------------------

  function Digit(n: nat): char
    requires n < 10
  {
    ('0' as int + n) as char
  }

  function Decimal(n: nat): string {
    if n < 10 then [Digit(n)] else Decimal(n / 10) + [Digit(n % 10)]
  }

  predicate AllDigits(text: string) {
    forall i :: 0 <= i < |text| ==> IsDigit(text[i])
  }

  function DecimalValue(text: string): nat
    requires AllDigits(text)
  {
    if text == "" then 0
    else DecimalValue(text[..|text| - 1]) * 10 + (text[|text| - 1] as int - '0' as int)
  }

  /** `strconv.ParseUint(text, 10, 64)`. */
  function ParseUInt(text: string): Option<UInt64> {
    if text != "" && AllDigits(text) && DecimalValue(text) < TWO_64 then Some(DecimalValue(text)) else None
  }

  lemma {:induction false} CountAllDigits(text: string)
    ensures AllDigits(text) ==> DigitCount(text) == |text|
  {
    if text != "" {
      CountAllDigits(text[1..]);
    }
  }

  lemma {:induction false} DecimalRoundTrip(n: nat)
    ensures Decimal(n) != "" && AllDigits(Decimal(n)) && DecimalValue(Decimal(n)) == n
    ensures Decimal(n)[0] == '0' ==> n == 0
  {
    if n >= 10 {
      DecimalRoundTrip(n / 10);
      assert Decimal(n)[..|Decimal(n)| - 1] == Decimal(n / 10);
    }
  }

  lemma DecimalIsPlain(n: nat)
    ensures PlainNumber(Decimal(n))
  {
    DecimalRoundTrip(n);
    CountAllDigits(Decimal(n));
  }

  lemma {:induction false} DecimalMonotone(m: nat, n: nat)
    requires m <= n
    ensures |Decimal(m)| <= |Decimal(n)|
  {
    if n >= 10 && m >= 10 {
      DecimalMonotone(m / 10, n / 10);
    }
  }

  // ---------------------------------------------------------------------------------------------
  // Record to JSON and back
  // ---------------------------------------------------------------------------------------------

  function TagElements(tags: seq<string>): Elements {
    if tags == [] then NoElements else Element(Text(tags[0]), TagElements(tags[1..]))
  }

  function TagsJson(tags: Option<seq<string>>): Json {
    if tags.None? then Null else Array(TagElements(tags.value))
  }

  function ToMembers(v: Vol): Members {
    Member("Name", Text(v.name),
    Member("Size", Number(Decimal(v.size)),
    Member("Tags", TagsJson(v.tags), LastMembers(v))))
  }

  function LastMembers(v: Vol): Members {
    Member("VGName", Text(v.vgName),
    Member("Status", Text(v.status),
    Member("SnapshotName", Text(v.snapshotName),
    Member("CloneName", Text(v.cloneName), NoMembers))))
  }

  /** `json.Marshal` of the record. */
  function Encode(v: Vol): string {
    Write(Object(ToMembers(v)))
  }

  /** Field names match without regard to case, as `encoding/json` folds them. */
  function Fold(key: string): string {
    seq(|key|, i requires 0 <= i < |key| => FoldChar(key[i]))
  }

  function FoldChar(c: char): char {
    if 'A' <= c <= 'Z' then ((c as int) + 32) as char
    else if c as int == 0x17F then 's'
    else if c as int == 0x212A then 'k'
    else c
  }

  function AsText(current: string, j: Json): Option<string> {
    match j
    case Text(s) => Some(s)
    case Null => Some(current)
    case _ => None
  }

  function AsSize(current: UInt64, j: Json): Option<UInt64> {
    match j
    case Number(text) => ParseUInt(text)
    case Null => Some(current)
    case _ => None
  }

  function AsTags(j: Json): Option<Option<seq<string>>> {
    match j
    case Null => Some(None)
    case Array(e) => (match TagList(e) case None => None case Some(tags) => Some(Some(tags)))
    case _ => None
  }

  function TagList(e: Elements): Option<seq<string>> {
    match e
    case NoElements => Some([])
    case Element(first, others) =>
      (match (AsText("", first), TagList(others))
       case (Some(tag), Some(tags)) => Some([tag] + tags)
       case _ => None)
  }

  /** Store one member into the record: unknown names are ignored, a value of the wrong type is an error. */
  function Assign(v: Vol, key: string, j: Json): Option<Vol> {
    var k := Fold(key);
    if k == "name" then
      match AsText(v.name, j) case None => None case Some(s) => Some(v.(name := s))
    else if k == "size" then
      match AsSize(v.size, j) case None => None case Some(n) => Some(v.(size := n))
    else if k == "tags" then
      match AsTags(j) case None => None case Some(tags) => Some(v.(tags := tags))
    else if k == "vgname" then
      match AsText(v.vgName, j) case None => None case Some(s) => Some(v.(vgName := s))
    else if k == "status" then
      match AsText(v.status, j) case None => None case Some(s) => Some(v.(status := s))
    else if k == "snapshotname" then
      match AsText(v.snapshotName, j) case None => None case Some(s) => Some(v.(snapshotName := s))
    else if k == "clonename" then
      match AsText(v.cloneName, j) case None => None case Some(s) => Some(v.(cloneName := s))
    else Some(v)
  }

  function AssignAll(v: Vol, m: Members): Option<Vol>
    decreases m
  {
    match m
    case NoMembers => Some(v)
    case Member(key, j, rest) =>
      (match Assign(v, key, j)
       case None => None
       case Some(v') => AssignAll(v', rest))
  }

  /** `json.Unmarshal` into an empty record; None is an error. */
  function Decode(data: string): Option<Vol> {
    match Parse(data)
    case Some(Null) => Some(ZERO_VOL)
    case Some(Object(m)) => AssignAll(ZERO_VOL, m)
    case _ => None
  }

  lemma AssignTexts(v: Vol, s: string)
    ensures Assign(v, "Name", Text(s)) == Some(v.(name := s))
    ensures Assign(v, "VGName", Text(s)) == Some(v.(vgName := s))
    ensures Assign(v, "Status", Text(s)) == Some(v.(status := s))
    ensures Assign(v, "SnapshotName", Text(s)) == Some(v.(snapshotName := s))
    ensures Assign(v, "CloneName", Text(s)) == Some(v.(cloneName := s))
  {
    assert Fold("Name") == "name";
    assert Fold("VGName") == "vgname";
    assert Fold("Status") == "status";
    assert Fold("SnapshotName") == "snapshotname";
    assert Fold("CloneName") == "clonename";
  }

  lemma AssignSize(v: Vol, n: UInt64)
    ensures Assign(v, "Size", Number(Decimal(n))) == Some(v.(size := n))
  {
    assert Fold("Size") == "size";
    DecimalRoundTrip(n);
  }

  lemma AssignTags(v: Vol, tags: Option<seq<string>>)
    ensures Assign(v, "Tags", TagsJson(tags)) == Some(v.(tags := tags))
  {
    assert Fold("Tags") == "tags";
    if tags.Some? {
      TagsRoundTrip(tags.value);
    }
  }

  lemma {:induction false} TagsRoundTrip(tags: seq<string>)
    ensures TagList(TagElements(tags)) == Some(tags) && PlainElements(TagElements(tags))
  {
    if tags != [] {
      TagsRoundTrip(tags[1..]);
      assert tags == [tags[0]] + tags[1..];
    }
  }

  lemma LastMembersRoundTrip(v: Vol, w: Vol)
    requires w == v.(vgName := "", status := "", snapshotName := "", cloneName := "")
    ensures AssignAll(w, LastMembers(v)) == Some(v)
    ensures PlainMembers(LastMembers(v))
  {
    var m4 := LastMembers(v);
    var m5 := m4.rest;
    var m6 := m5.rest;
    var m7 := m6.rest;
    var v4 := w.(vgName := v.vgName);
    var v5 := v4.(status := v.status);
    var v6 := v5.(snapshotName := v.snapshotName);
    AssignTexts(w, v.vgName);
    AssignTexts(v4, v.status);
    AssignTexts(v5, v.snapshotName);
    AssignTexts(v6, v.cloneName);
    assert AssignAll(v6, m7) == AssignAll(v, NoMembers) == Some(v);
    assert AssignAll(v5, m6) == Some(v);
    assert AssignAll(v4, m5) == Some(v);
    assert PlainMembers(m7);
    assert PlainMembers(m6);
    assert PlainMembers(m5);
  }

  lemma MembersRoundTrip(v: Vol)
    ensures AssignAll(ZERO_VOL, ToMembers(v)) == Some(v)
    ensures PlainMembers(ToMembers(v))
  {
    var m := ToMembers(v);
    var m2 := m.rest;
    var m3 := m2.rest;
    var v1 := ZERO_VOL.(name := v.name);
    var v2 := v1.(size := v.size);
    var v3 := v2.(tags := v.tags);
    LastMembersRoundTrip(v, v3);
    AssignTags(v2, v.tags);
    AssignSize(v1, v.size);
    AssignTexts(ZERO_VOL, v.name);
    assert AssignAll(v2, m3) == Some(v);
    assert AssignAll(v1, m2) == Some(v);
    if v.tags.Some? {
      TagsRoundTrip(v.tags.value);
    }
    DecimalIsPlain(v.size);
    assert PlainMembers(m3);
  }

  /**
   * Every record survives being written and read, whatever its names, tags and size; and text left
   * behind a record makes the file unreadable unless it is white space.
   */
  lemma DecodeEncode(v: Vol, junk: string)
    ensures Decode(Encode(v) + junk) == if Blank(junk) then Some(v) else None
    ensures Decode(Encode(v)) == Some(v)
  {
    MembersRoundTrip(v);
    ParseWritten(ToMembers(v), junk);
    ParseWritten(ToMembers(v), "");
    assert Encode(v) + "" == Encode(v);
  }

  lemma EncodeEnd(v: Vol)
    ensures Encode(v) != "" && Encode(v)[|Encode(v)| - 1] == '}'
  {
    var m := ToMembers(v);
    assert m.Member?;
    hide ToMembers, Write;
    WriteObjectEnd(m);
  }

  /** No record's text is the beginning of another record's text. */
  lemma EncodePrefixFree(a: Vol, b: Vol)
    requires Encode(a) <= Encode(b)
    ensures a == b
  {
    var junk := Encode(b)[|Encode(a)|..];
    assert Encode(b) == Encode(a) + junk;
    DecodeEncode(a, junk);
    DecodeEncode(b, "");
  }

  // ---------------------------------------------------------------------------------------------
  // Writing without truncation
  // ---------------------------------------------------------------------------------------------

  /**
   * Writing one record over another without truncation leaves a readable file exactly when the new
   * text is at least as long; it is then the new record. The old record is never read back.
   */
  lemma OverwriteDecodes(a: Vol, b: Vol)
    ensures Decode(Overwrite(Encode(a), Encode(b)))
         == if |Encode(b)| >= |Encode(a)| then Some(b) else None
  {
    EncodeEnd(a);
    OverwriteSplits(Encode(a), Encode(b));
    DecodeEncode(b, Leftover(Encode(a), Encode(b)));
  }

  /** What a shorter text leaves of the longer one it is written over. */
  function Leftover(before: string, text: string): string {
    if |before| <= |text| then "" else before[|text|..]
  }

  lemma OverwriteSplits(before: string, text: string)
    requires before != "" && before[|before| - 1] == '}'
    ensures Overwrite(before, text) == text + Leftover(before, text)
    ensures Blank(Leftover(before, text)) <==> |text| >= |before|
  {
    if |text| < |before| {
      NotBlank(Leftover(before, text));
    } else {
      assert text + "" == text;
    }
  }

  /** Two records of one volume differ in length exactly as their sizes do in digits. */
  lemma RecordLength(vg: string, name: string, m: UInt64, n: UInt64)
    ensures |Encode(Record(vg, name, m))| - |Decimal(m)| == |Encode(Record(vg, name, n))| - |Decimal(n)|
  {
    var tail := Member("Tags", Null, LastMembers(Record(vg, name, m)));
    assert LastMembers(Record(vg, name, m)) == LastMembers(Record(vg, name, n));
    SecondNumberLength("Name", Text(name), "Size", Decimal(m), Decimal(n), tail);
  }

  lemma SecondNumberLength(k: string, j: Json, k': string, a: string, b: string, tail: Members)
    requires tail.Member?
    ensures |Write(Object(Member(k, j, Member(k', Number(a), tail))))| - |a|
         == |Write(Object(Member(k, j, Member(k', Number(b), tail))))| - |b|
  {
    WriteMembersStep(Member(k', Number(a), tail));
    WriteMembersStep(Member(k', Number(b), tail));
    WriteMembersStep(Member(k, j, Member(k', Number(a), tail)));
    WriteMembersStep(Member(k, j, Member(k', Number(b), tail)));
  }

  lemma WriteMembersStep(m: Members)
    requires m.Member? && m.rest.Member?
    ensures |WriteMembers(m)| == |Quote(m.key)| + 2 + |Write(m.value)| + |WriteMembers(m.rest)|
  {
  }

  /**
   * Recording a size over another size of the same volume without truncation stays readable exactly
   * when the new size has at least as many digits; any size that is not smaller has.
   */
  lemma OverwriteSize(vg: string, name: string, m: UInt64, n: UInt64)
    ensures Decode(Overwrite(Encode(Record(vg, name, m)), Encode(Record(vg, name, n)))).Some?
       <==> |Decimal(n)| >= |Decimal(m)|
    ensures n >= m ==> |Decimal(n)| >= |Decimal(m)|
  {
    OverwriteDecodes(Record(vg, name, m), Record(vg, name, n));
    RecordLength(vg, name, m, n);
    if n >= m {
      DecimalMonotone(m, n);
    }
  }

  // ---------------------------------------------------------------------------------------------
  // The reply form of a record
  // ---------------------------------------------------------------------------------------------

  datatype LogicalVolume = LogicalVolume(
    volumeGroup: string, name: string, size: UInt64, cloneName: string,
    tags: Option<seq<string>>, snapshotName: string, status: string)

  /** Each field of the reply is the record's field of that name. */
  predicate IsReply(r: LogicalVolume, v: Vol) {
    && r.volumeGroup == v.vgName && r.name == v.name && r.size == v.size
    && r.tags == v.tags && r.status == v.status
    && r.cloneName == v.cloneName && r.snapshotName == v.snapshotName
  }

  function ToProto(v: Vol): (r: LogicalVolume)
    ensures IsReply(r, v)
  {
    LogicalVolume(v.vgName, v.name, v.size, v.cloneName, v.tags, v.snapshotName, v.status)
  }
}
