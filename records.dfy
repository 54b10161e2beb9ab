/**
 * From parsed CSV rows to venue records: the header row names the columns,
 * each data row becomes one record (`buildRecord`), phone cells lose a
 * spreadsheet `.0`, longitudes typed in the (20, 30) band get their missing
 * hundred back, and only rows with two or more cells and only records with
 * both coordinates survive (`loadData`).
 */
module Records {
  import opened Wrappers
  import opened Strings
  import opened Seqs
  import Csv

  // The column labels of the venue table.
  const IdLabel := "編號"
  const DistrictLabel := "行政區"
  const NameLabel := "廠商名稱〈市招〉"
  const OrgLabel := "所屬單位"
  const OperatorLabel := "經營主體"
  const PhoneLabel := "市話"
  const ExtLabel := "分機"
  const MobileLabel := "行動電話"
  const AddressLabel := "地址"
  const RemarkLabel := "備註"
  const LngLabel := "經度"
  const LatLabel := "緯度"

  /** A venue record; `None` is the `null` of an unreadable coordinate. */
  datatype Venue = Venue(
    id: string, district: string, name: string, org: string, operator: string,
    phone: string, ext: string, mobile: string, address: string, remark: string,
    lng: Option<real>, lat: Option<real>)

  /**
   * A reader of decimal numbers in the manner of `parseFloat` followed by
   * `Number.isFinite`: `None` is NaN or an infinity.
   */
  type NumberParser = string -> Option<real>

  /** `row[i] ?? ""`: a missing cell reads as the empty string. */
  function Cell(row: Csv.Row, i: nat): string {
    if i < |row| then row[i] else ""
  }

  /** The position of the last header equal to `key`. */
  function LastIndex(headers: seq<string>, key: string): (r: Option<nat>)
    ensures r.None? <==> key !in headers
    ensures r.Some? ==>
              r.value < |headers| && headers[r.value] == key
              && forall j :: r.value < j < |headers| ==> headers[j] != key
    decreases |headers|
  {
    if headers == [] then None
    else if headers[|headers| - 1] == key then Some(|headers| - 1)
    else LastIndex(headers[..|headers| - 1], key)
  }

  /** The cell under the last column headed `key`, if there is such a column. */
  function Column(headers: seq<string>, row: Csv.Row, key: string): Option<string> {
    match LastIndex(headers, key)
    case None => None
    case Some(i) => Some(Cell(row, i))
  }

  /**
   * The object `buildRecord` fills by walking the headers in order: a
   * label that heads two columns keeps the later column's cell.
   */
  function LabelMap(headers: seq<string>, row: Csv.Row): (data: map<string, string>)
    ensures forall key :: key in data <==> key in headers
    ensures forall key :: key in data ==> Column(headers, row, key) == Some(data[key])
    decreases |headers|
  {
    if headers == [] then map[]
    else LabelMap(headers[..|headers| - 1], row)[headers[|headers| - 1] := Cell(row, |headers| - 1)]
  }

  /** The `headers.forEach` loop of `buildRecord`. */
  method DataObject(headers: seq<string>, row: Csv.Row) returns (data: map<string, string>)
    ensures data == LabelMap(headers, row)
  {
    data := map[];
    var i := 0;
    while i < |headers|
      invariant i <= |headers|
      invariant data == LabelMap(headers[..i], row)
    {
      assert headers[..i + 1][..i] == headers[..i];
      data := data[headers[i] := Cell(row, i)];
      i := i + 1;
    }
    assert headers[..i] == headers;
  }

  /** `data[key]`, `None` standing for `undefined`. */
  function Lookup(data: map<string, string>, key: string): Option<string> {
    if key in data then Some(data[key]) else None
  }

  /** The phone value with one `.0` removed from its very end, when it has one. */
  function StripZeroSuffix(s: string): (r: string)
    ensures EndsWith(s, ".0") ==> r + ".0" == s
    ensures !EndsWith(s, ".0") ==> r == s
  {
    if EndsWith(s, ".0") then s[..|s| - 2] else s
  }

  /**
   * `normalizePhone`: an absent or empty value gives `""`; otherwise one
   * trailing `.0` is removed, and only then is the value trimmed.
   */
  function NormalizePhone(value: Option<string>): (r: string)
    ensures IsTrimmed(r)
    ensures (value.None? || value.value == "") ==> r == ""
    ensures value.Some? && value.value != "" ==> r == Trim(StripZeroSuffix(value.value))
  {
    if value.None? || value.value == "" then "" else Trim(StripZeroSuffix(value.value))
  }

  /** A phone that is already trimmed and has no `.0` at its end is kept as it is. */
  lemma NormalizePhoneKeepsClean(s: string)
    requires IsTrimmed(s) && !EndsWith(s, ".0")
    ensures NormalizePhone(Some(s)) == s
  {
  }

  /** Only one `.0` goes, and the suffix is looked for before trimming. */
  lemma NormalizePhoneExamples()
    ensures NormalizePhone(Some("1.0.0")) == "1.0"
    ensures NormalizePhone(Some("12.0 ")) == "12.0"
    ensures NormalizePhone(Some("")) == "" && NormalizePhone(None) == ""
  {
    assert EndsWith("1.0.0", ".0");
    assert StripZeroSuffix("1.0.0") == "1.0";
    assert IsTrimmed("1.0");
    assert !EndsWith("12.0 ", ".0");
    assert LeadingSpace("12.0 ") == 0;
    assert TrailingSpace("12.0") == 4;
    assert TrailingSpace("12.0 ") == TrailingSpace("12.0");
  }

  /** `fixLongitude`: a longitude strictly between 20 and 30 has lost its leading 1. */
  function FixLongitude(lng: Option<real>): (r: Option<real>)
    ensures r.Some? <==> lng.Some?
    ensures lng.Some? && 20.0 < lng.value < 30.0 ==> r == Some(lng.value + 100.0)
    ensures lng.Some? && !(20.0 < lng.value < 30.0) ==> r == lng
  {
    match lng
    case None => None
    case Some(x) => if x < 100.0 && x > 20.0 && x < 30.0 then Some(x + 100.0) else lng
  }

  /** The correction changes a longitude exactly when it lies in the band, and never leaves one there. */
  lemma FixLongitudeBand(lng: Option<real>)
    ensures FixLongitude(lng) != lng <==> lng.Some? && 20.0 < lng.value < 30.0
    ensures FixLongitude(lng).Some? ==> !(20.0 < FixLongitude(lng).value < 30.0)
  {
  }

  lemma FixLongitudeIdempotent(lng: Option<real>)
    ensures FixLongitude(FixLongitude(lng)) == FixLongitude(lng)
  {
    FixLongitudeBand(lng);
  }

  lemma FixLongitudeExamples()
    ensures FixLongitude(Some(21.5)) == Some(121.5)
    ensures FixLongitude(Some(121.5)) == Some(121.5)
    ensures FixLongitude(Some(15.0)) == Some(15.0)
  {
  }

  /** `parseFloat` of a cell; an absent column reads as `undefined`, which is NaN. */
  function ParseCoordinate(value: Option<string>, parse: NumberParser): Option<real> {
    match value
    case None => None
    case Some(s) => parse(s)
  }

  /** The text of a column, `""` when the table has no such column. */
  function Text(headers: seq<string>, row: Csv.Row, key: string): string {
    Column(headers, row, key).GetOr("")
  }

  /** `buildRecord(row, headers, index)`; BuildRecordFields states what each field holds. */
  function BuildRecord(row: Csv.Row, headers: seq<string>, index: nat, parse: NumberParser): Venue
  {
    var data := LabelMap(headers, row);
    var id := Lookup(data, IdLabel).GetOr("");
    Venue(
      if id != "" then id else NatToString(index + 1),
      Lookup(data, DistrictLabel).GetOr(""),
      Lookup(data, NameLabel).GetOr(""),
      Lookup(data, OrgLabel).GetOr(""),
      Lookup(data, OperatorLabel).GetOr(""),
      NormalizePhone(Lookup(data, PhoneLabel)),
      NormalizePhone(Lookup(data, ExtLabel)),
      NormalizePhone(Lookup(data, MobileLabel)),
      Lookup(data, AddressLabel).GetOr(""),
      Lookup(data, RemarkLabel).GetOr(""),
      FixLongitude(ParseCoordinate(Lookup(data, LngLabel), parse)),
      ParseCoordinate(Lookup(data, LatLabel), parse))
  }

  /**
   * The other fields of a record read through the columns of the table: the three
   * phone fields are normalised, a longitude in the defect band is
   * corrected, and a missing column reads as `""` or as an unreadable number.
   */
  lemma BuildRecordFields(row: Csv.Row, headers: seq<string>, index: nat, parse: NumberParser)
    ensures var v := BuildRecord(row, headers, index, parse);
            && v.district == Text(headers, row, DistrictLabel) && v.name == Text(headers, row, NameLabel)
            && v.org == Text(headers, row, OrgLabel) && v.operator == Text(headers, row, OperatorLabel)
            && v.address == Text(headers, row, AddressLabel) && v.remark == Text(headers, row, RemarkLabel)
            && v.phone == NormalizePhone(Column(headers, row, PhoneLabel))
            && v.ext == NormalizePhone(Column(headers, row, ExtLabel))
            && v.mobile == NormalizePhone(Column(headers, row, MobileLabel))
            && v.lat == ParseCoordinate(Column(headers, row, LatLabel), parse)
            && v.lng == FixLongitude(ParseCoordinate(Column(headers, row, LngLabel), parse))
  {
  }

  /** The id is the id cell, or the 1-based position among the data rows when that cell is empty. */
  lemma BuildRecordId(row: Csv.Row, headers: seq<string>, index: nat, parse: NumberParser)
    ensures var v := BuildRecord(row, headers, index, parse);
            && v.id == (if Text(headers, row, IdLabel) != "" then Text(headers, row, IdLabel) else NatToString(index + 1))
            && v.id != ""
  {
  }

  /** A row shorter than the header row reads as `""` in the columns it lacks. */
  lemma ShortRowReadsEmpty(headers: seq<string>, row: Csv.Row, key: string)
    requires key in headers
    requires forall j :: 0 <= j < |headers| && headers[j] == key ==> j >= |row|
    ensures Text(headers, row, key) == ""
  {
  }

  /** `record.lat && record.lng`: both coordinates present and neither zero. */
  predicate HasCoordinates(v: Venue) {
    v.lat.Some? && v.lat.value != 0.0 && v.lng.Some? && v.lng.value != 0.0
  }

  function Headers(rows: seq<Csv.Row>): seq<string> {
    if rows == [] then [] else rows[0]
  }

  /** The rows after the header that have more than one cell, in order. */
  function DataRows(rows: seq<Csv.Row>): (kept: seq<Csv.Row>)
    ensures rows == [] ==> kept == []
    ensures rows != [] ==> |kept| < |rows| && forall row :: row in kept <==> row in rows[1..] && |row| > 1
  {
    if rows == [] then [] else Keep(rows[1..], (row: Csv.Row) => |row| > 1)
  }

  /** Every data row as a record, numbered by its position among the data rows. */
  function Built(rows: seq<Csv.Row>, parse: NumberParser): seq<Venue> {
    MapIndexed(DataRows(rows), (row, index) => BuildRecord(row, Headers(rows), index, parse))
  }

  lemma BuiltMembers(rows: seq<Csv.Row>, parse: NumberParser)
    ensures forall v :: v in Built(rows, parse) <==>
              exists i :: 0 <= i < |DataRows(rows)| && v == BuildRecord(DataRows(rows)[i], Headers(rows), i, parse)
  {
    MapIndexedMembers(DataRows(rows), (row, index) => BuildRecord(row, Headers(rows), index, parse));
  }

  /** The result of `loadData` once the text is parsed: the records that have coordinates. */
  function LoadRecords(rows: seq<Csv.Row>, parse: NumberParser): seq<Venue> {
    Keep(Built(rows, parse), HasCoordinates)
  }

  /**
   * At most one record per data row; every record has both coordinates; a
   * record is kept exactly when it is built from some data row and has
   * coordinates; and the records keep the order of their rows.
   */
  lemma LoadRecordsSpec(rows: seq<Csv.Row>, parse: NumberParser)
    ensures var venues := LoadRecords(rows, parse);
            && |venues| <= |DataRows(rows)|
            && (forall v :: v in venues ==> HasCoordinates(v))
            && (forall v :: v in venues <==>
                  HasCoordinates(v) && exists i :: 0 <= i < |DataRows(rows)| && v == BuildRecord(DataRows(rows)[i], Headers(rows), i, parse))
            && IsSubsequence(venues, Built(rows, parse))
  {
    BuiltMembers(rows, parse);
  }

  /** `loadData` after the fetch: parse the text, then build and filter the records. */
  method LoadData(text: string, parse: NumberParser) returns (venues: seq<Venue>)
    ensures venues == LoadRecords(Csv.Parse(text), parse)
  {
    var rows := Csv.ParseCsv(text);
    venues := LoadRecords(rows, parse);
  }

  /** Two data rows without an id of their own get different positional ids. */
  lemma FallbackIdsDistinct(rows: seq<Csv.Row>, parse: NumberParser, i: nat, j: nat)
    requires i < j < |Built(rows, parse)|
    requires Text(Headers(rows), DataRows(rows)[i], IdLabel) == ""
    requires Text(Headers(rows), DataRows(rows)[j], IdLabel) == ""
    ensures Built(rows, parse)[i].id != Built(rows, parse)[j].id
  {
    var built, data, hs := Built(rows, parse), DataRows(rows), Headers(rows);
    assert built[i] == BuildRecord(data[i], hs, i, parse) && built[j] == BuildRecord(data[j], hs, j, parse);
    BuildRecordId(data[i], hs, i, parse);
    BuildRecordId(data[j], hs, j, parse);
    NatToStringInjective(i + 1, j + 1);
  }

  /** A latitude cell that does not read as a number, or reads as zero, drops the record. */
  lemma UnreadableLatitudeDropped(rows: seq<Csv.Row>, parse: NumberParser, i: nat)
    requires i < |Built(rows, parse)|
    requires var lat := ParseCoordinate(Column(Headers(rows), DataRows(rows)[i], LatLabel), parse);
             lat.None? || lat.value == 0.0
    ensures Built(rows, parse)[i] !in LoadRecords(rows, parse)
  {
  }

  /** A record whose two coordinates read as non-zero numbers is kept. */
  lemma ReadableRecordKept(rows: seq<Csv.Row>, parse: NumberParser, i: nat)
    requires i < |Built(rows, parse)|
    requires HasCoordinates(Built(rows, parse)[i])
    ensures Built(rows, parse)[i] in LoadRecords(rows, parse)
  {
  }
}
