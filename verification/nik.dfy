/**
 * The NIK decoder: region names from a three-level table searched by code
 * prefix, then birth date and gender from digits 7 to 12.
 *
 * The region table is an ordered association list standing for the loaded
 * JSON object, so that "first match" follows the object's key order.
 */
module Nik {
  import opened Wrappers
  import opened Text

  const Male := "Laki-laki"
  const Female := "Perempuan"

  /** A district (kecamatan): its code and its name. */
  datatype District = District(code: string, name: string)
  /** A regency (kabupaten/kota); `name` is None when the entry has no "nama". */
  datatype Regency = Regency(code: string, name: Option<string>, districts: seq<District>)
  /** A province; `name` is None when the entry has no "nama". */
  datatype Province = Province(code: string, name: Option<string>, regencies: seq<Regency>)
  /** The region table; an empty table stands for a missing or unreadable file. */
  type RegionTable = seq<Province>

  datatype Birth = Birth(date: string, gender: string)

  /** The decoded record; `birth` is None when the date digits do not parse. */
  datatype NikInfo = NikInfo(nik: string, province: string, regency: string, district: string, birth: Option<Birth>)

  /** Which entry was matched at each level. */
  datatype RegionMatch = RegionMatch(province: Option<nat>, regency: Option<nat>, district: Option<nat>)

  // ---------------------------------------------------------------------------
  // Region lookup

  /** The first province whose code starts with `code`. */
  function FindProvince(table: RegionTable, code: string): (r: Option<nat>)
    ensures r.Some? ==> r.value < |table| && code <= table[r.value].code
    ensures r.Some? ==> forall j :: 0 <= j < r.value ==> !(code <= table[j].code)
    ensures r.None? ==> forall j :: 0 <= j < |table| ==> !(code <= table[j].code)
  {
    if table == [] then None
    else if code <= table[0].code then Some(0)
    else
      match FindProvince(table[1..], code)
      case Some(k) => Some(k + 1)
      case None => None
  }

  /** The first regency whose code is a prefix of `nik`. */
  function FindRegency(regencies: seq<Regency>, nik: string): (r: Option<nat>)
    ensures r.Some? ==> r.value < |regencies| && regencies[r.value].code <= nik
    ensures r.Some? ==> forall j :: 0 <= j < r.value ==> !(regencies[j].code <= nik)
    ensures r.None? ==> forall j :: 0 <= j < |regencies| ==> !(regencies[j].code <= nik)
  {
    if regencies == [] then None
    else if regencies[0].code <= nik then Some(0)
    else
      match FindRegency(regencies[1..], nik)
      case Some(k) => Some(k + 1)
      case None => None
  }

  /** The first district whose code is a prefix of `nik`. */
  function FindDistrict(districts: seq<District>, nik: string): (r: Option<nat>)
    ensures r.Some? ==> r.value < |districts| && districts[r.value].code <= nik
    ensures r.Some? ==> forall j :: 0 <= j < r.value ==> !(districts[j].code <= nik)
    ensures r.None? ==> forall j :: 0 <= j < |districts| ==> !(districts[j].code <= nik)
  {
    if districts == [] then None
    else if districts[0].code <= nik then Some(0)
    else
      match FindDistrict(districts[1..], nik)
      case Some(k) => Some(k + 1)
      case None => None
  }

  /**
   * The three-level search. A level that finds nothing stops the search
   * below it; a regency found under the empty code counts as not found,
   * because the program tests the found key for truthiness.
   */
  function LocateRegion(table: RegionTable, nik: string): (m: RegionMatch)
    requires |nik| >= 2
    ensures m.regency.Some? ==> m.province.Some?
    ensures m.district.Some? ==> m.regency.Some?
    ensures m.province.Some? ==> m.province.value < |table|
    ensures m.regency.Some? ==> m.regency.value < |table[m.province.value].regencies|
    ensures m.district.Some? ==>
      m.district.value < |table[m.province.value].regencies[m.regency.value].districts|
  {
    match FindProvince(table, nik[..2])
    case None => RegionMatch(None, None, None)
    case Some(p) =>
      match FindRegency(table[p].regencies, nik)
      case None => RegionMatch(Some(p), None, None)
      case Some(k) =>
        var reg := table[p].regencies[k];
        if reg.code == "" then RegionMatch(Some(p), None, None)
        else RegionMatch(Some(p), Some(k), FindDistrict(reg.districts, nik))
  }

  /** The names recorded for a match; a matched entry without a name reads "unknown" too. */
  function RegionNames(table: RegionTable, m: RegionMatch): (names: (string, string, string))
    requires m.regency.Some? ==> m.province.Some?
    requires m.district.Some? ==> m.regency.Some?
    requires m.province.Some? ==> m.province.value < |table|
    requires m.regency.Some? ==> m.regency.value < |table[m.province.value].regencies|
    requires m.district.Some? ==>
      m.district.value < |table[m.province.value].regencies[m.regency.value].districts|
    ensures m.province.None? ==> names.0 == Unknown
    ensures m.regency.None? ==> names.1 == Unknown
    ensures m.district.None? ==> names.2 == Unknown
    ensures m.province.Some? ==> names.0 == table[m.province.value].name.GetOr(Unknown)
    ensures m.regency.Some? ==>
      names.1 == table[m.province.value].regencies[m.regency.value].name.GetOr(Unknown)
    ensures m.district.Some? ==>
      names.2 == table[m.province.value].regencies[m.regency.value].districts[m.district.value].name
  {
    var prov := if m.province.Some? then table[m.province.value].name.GetOr(Unknown) else Unknown;
    var reg := if m.regency.Some? then table[m.province.value].regencies[m.regency.value].name.GetOr(Unknown) else Unknown;
    var dist := if m.district.Some?
      then table[m.province.value].regencies[m.regency.value].districts[m.district.value].name
      else Unknown;
    (prov, reg, dist)
  }

  // ---------------------------------------------------------------------------
  // Birth date and gender

  /** The ASCII characters `int()` strips as whitespace around a number. */
  predicate IsSpace(c: char) {
    c == ' ' || ('\t' <= c <= '\r')
  }

  /** A character that can appear in a two-character text `int()` accepts. */
  predicate IntChar(c: char) {
    IsDigit(c) || IsSpace(c) || c == '+' || c == '-'
  }

  /**
   * `int()` of a two-character text: two digits; a sign then a digit; or a
   * digit with whitespace on one side. Anything else raises, shown as None.
   */
  function IntOf2(s: string): (r: Option<int>)
    requires |s| == 2
    ensures r.Some? <==>
      || (IsDigit(s[0]) && (IsDigit(s[1]) || IsSpace(s[1])))
      || (IsDigit(s[1]) && (s[0] == '+' || s[0] == '-' || IsSpace(s[0])))
    ensures IsDigit(s[0]) && IsDigit(s[1]) ==> r == Some(10 * DigitValue(s[0]) + DigitValue(s[1]))
    ensures IsDigit(s[0]) && IsSpace(s[1]) ==> r == Some(DigitValue(s[0]))
    ensures (s[0] == '+' || IsSpace(s[0])) && IsDigit(s[1]) ==> r == Some(DigitValue(s[1]))
    ensures s[0] == '-' && IsDigit(s[1]) ==> r == Some(-(DigitValue(s[1]) as int))
    ensures r.Some? ==> -9 <= r.value <= 99 && IntChar(s[0]) && (IsDigit(s[1]) || IsSpace(s[1]))
  {
    if IsDigit(s[0]) && IsDigit(s[1]) then Some(10 * DigitValue(s[0]) + DigitValue(s[1]))
    else if IsDigit(s[1]) && (s[0] == '+' || IsSpace(s[0])) then Some(DigitValue(s[1]))
    else if IsDigit(s[1]) && s[0] == '-' then Some(-(DigitValue(s[1]) as int))
    else if IsDigit(s[0]) && IsSpace(s[1]) then Some(DigitValue(s[0]))
    else None
  }

  function DigitChar(d: nat): (c: char)
    requires d < 10
    ensures IsDigit(c) && DigitValue(c) == d
  {
    ('0' as int + d) as char
  }

  /** Two digits showing n, with a leading zero below 10. */
  function TwoDigits(n: nat): (s: string)
    requires n < 100
    ensures |s| == 2 && AllDigits(s)
  {
    [DigitChar(n / 10), DigitChar(n % 10)]
  }

  /** `{n:02d}` for n from -9 to 99: two digits, or a minus sign and one digit. */
  function Pad2(n: int): (s: string)
    requires -9 <= n <= 99
    ensures |s| == 2
    ensures 0 <= n ==> AllDigits(s)
    ensures n < 0 ==> s[0] == '-' && IsDigit(s[1])
  {
    if n < 0 then ['-', DigitChar(-n)] else TwoDigits(n)
  }

  /** `{y}` for a four-digit year: its century and its last two digits. */
  function Digits4(y: nat): (s: string)
    requires 1000 <= y < 10000
    ensures |s| == 4 && AllDigits(s)
  {
    TwoDigits(y / 100) + TwoDigits(y % 100)
  }

  /** `DD-MM-YYYY`. */
  function FormatDate(day: int, month: int, year: nat): (s: string)
    requires -9 <= day <= 99 && -9 <= month <= 99 && 1000 <= year < 10000
    ensures |s| == 10 && s[2] == '-' && s[5] == '-' && AllDigits(s[6..])
    ensures 0 <= day ==> AllDigits(s[..2])
    ensures 0 <= month ==> AllDigits(s[3..5])
  {
    var d, m, y := Pad2(day), Pad2(month), Digits4(year);
    var r := d + "-" + m + "-" + y;
    assert r[..2] == d && r[3..5] == m && r[6..] == y;
    r
  }

  /** Reads a `DD-MM-YYYY` text back; the inverse of FormatDate. */
  function ParseDate(s: string): (r: Option<(int, int, int)>)
    requires |s| == 10
  {
    var d, m := IntOf2(s[0..2]), IntOf2(s[3..5]);
    var c, y := IntOf2(s[6..8]), IntOf2(s[8..10]);
    if d.Some? && m.Some? && c.Some? && y.Some? && s[2] == '-' && s[5] == '-'
    then Some((d.value, m.value, 100 * c.value + y.value))
    else None
  }

  /**
   * The year field resolved against the current year: a two-digit year not
   * later than this century's current year is in the 2000s, a later one in
   * the 1900s; a negative field (from a `-` sign) always counts from 2000.
   */
  function FullYear(yy: int, currentYear: nat): (year: nat)
    requires -9 <= yy <= 99
    ensures 1900 < year <= 2099
    ensures 0 <= yy ==> year % 100 == yy && (year >= 2000 <==> yy <= currentYear % 100)
    ensures yy < 0 ==> year == 2000 + yy
  {
    var cy := currentYear % 100;
    assert 0 <= cy < 100;
    if yy <= cy then 2000 + yy else 1900 + yy
  }

  /** Digits 7-8 are the day (plus 40 for women), 9-10 the month, 11-12 the year. */
  function DecodeBirth(nik: string, currentYear: nat): (b: Option<Birth>)
    requires |nik| == 16
  {
    var dd, mm, yy := IntOf2(nik[6..8]), IntOf2(nik[8..10]), IntOf2(nik[10..12]);
    if dd.Some? && mm.Some? && yy.Some? then Some(BirthOf(dd.value, mm.value, yy.value, currentYear))
    else None
  }

  /** The birth fields from the day, month and year numbers read out of the NIK. */
  function BirthOf(dd: int, mm: int, yy: int, currentYear: nat): Birth
    requires -9 <= dd <= 99 && -9 <= mm <= 99 && -9 <= yy <= 99
  {
    var female := dd > 40;
    var day := if female then dd - 40 else dd;
    Birth(FormatDate(day, mm, FullYear(yy, currentYear)), if female then Female else Male)
  }

  // ---------------------------------------------------------------------------
  // The decoder

  /** `parse_nik`: what the decoder records for `nik`, as a specification. */
  function DecodeNik(nik: string, table: RegionTable, currentYear: nat): (info: NikInfo)
    ensures info.nik == nik
    ensures |nik| != 16 ==> info == NikInfo(nik, Unknown, Unknown, Unknown, None)
  {
    if |nik| != 16 then NikInfo(nik, Unknown, Unknown, Unknown, None)
    else
      var names := RegionNames(table, LocateRegion(table, nik));
      NikInfo(nik, names.0, names.1, names.2, DecodeBirth(nik, currentYear))
  }

  /** The province loop: stops at the first province whose code starts with `code`. */
  method SearchProvince(table: RegionTable, code: string) returns (key: Option<nat>)
    ensures key == FindProvince(table, code)
  {
    key := None;
    var i := 0;
    while i < |table|
      invariant 0 <= i <= |table|
      invariant forall j :: 0 <= j < i ==> !(code <= table[j].code)
    {
      if code <= table[i].code {
        return Some(i);
      }
      i := i + 1;
    }
  }

  /** The regency loop: stops at the first regency whose code is a prefix of `nik`. */
  method SearchRegency(regencies: seq<Regency>, nik: string) returns (key: Option<nat>)
    ensures key == FindRegency(regencies, nik)
  {
    key := None;
    var k := 0;
    while k < |regencies|
      invariant 0 <= k <= |regencies|
      invariant forall j :: 0 <= j < k ==> !(regencies[j].code <= nik)
    {
      if regencies[k].code <= nik {
        return Some(k);
      }
      k := k + 1;
    }
  }

  /** The district loop: stops at the first district whose code is a prefix of `nik`. */
  method SearchDistrict(districts: seq<District>, nik: string) returns (key: Option<nat>)
    ensures key == FindDistrict(districts, nik)
  {
    key := None;
    var d := 0;
    while d < |districts|
      invariant 0 <= d <= |districts|
      invariant forall j :: 0 <= j < d ==> !(districts[j].code <= nik)
    {
      if districts[d].code <= nik {
        return Some(d);
      }
      d := d + 1;
    }
  }

  /**
   * `parse_nik` as the program runs it: the record starts with every region
   * field unknown, three searches stop at their first match, and the birth
   * fields are added only when the date digits parse.
   */
  method ParseNik(nik: string, table: RegionTable, currentYear: nat) returns (res: NikInfo)
    ensures res == DecodeNik(nik, table, currentYear)
  {
    res := NikInfo(nik, Unknown, Unknown, Unknown, None);
    if |nik| != 16 {
      return;
    }
    if |table| > 0 {
      var provKey := SearchProvince(table, nik[..2]);
      if provKey.Some? {
        var prov := table[provKey.value];
        res := res.(province := prov.name.GetOr(Unknown));
        var kabKey := SearchRegency(prov.regencies, nik);
        if kabKey.Some? && prov.regencies[kabKey.value].code != "" {
          var kab := prov.regencies[kabKey.value];
          res := res.(regency := kab.name.GetOr(Unknown));
          var distKey := SearchDistrict(kab.districts, nik);
          if distKey.Some? {
            res := res.(district := kab.districts[distKey.value].name);
          }
        }
      }
    }
    res := res.(birth := DecodeBirth(nik, currentYear));
  }

  /** The summary rows of a NIK target, in the order the program inserts them. */
  function NikSummary(info: NikInfo): (rows: seq<(string, string)>)
    ensures |rows| == if info.birth.Some? then 6 else 4
    ensures rows[0] == ("nik", info.nik) && rows[1] == ("provinsi", info.province)
    ensures rows[2] == ("kabupaten", info.regency) && rows[3] == ("kecamatan", info.district)
    ensures info.birth.Some? ==>
      rows[4] == ("tanggal_lahir", info.birth.value.date) && rows[5] == ("jenis_kelamin", info.birth.value.gender)
  {
    [("nik", info.nik), ("provinsi", info.province), ("kabupaten", info.regency), ("kecamatan", info.district)]
    + match info.birth
      case Some(b) => [("tanggal_lahir", b.date), ("jenis_kelamin", b.gender)]
      case None => []
  }

  // ---------------------------------------------------------------------------
  // Properties

  /**
   * Each level takes the first entry, in table order, that matches; the
   * regency and district searches run only below a found parent, and a
   * regency whose code is empty stops the search like a miss.
   */
  lemma LocateRegionFirstMatch(table: RegionTable, nik: string)
    requires |nik| == 16
    ensures var m := LocateRegion(table, nik);
      && (m.province.Some? <==> exists j :: 0 <= j < |table| && nik[..2] <= table[j].code)
      && (m.province.Some? ==> var p := m.province.value;
            && nik[..2] <= table[p].code
            && forall j :: 0 <= j < p ==> !(nik[..2] <= table[j].code))
      && (m.regency.Some? ==> var regs := table[m.province.value].regencies; var k := m.regency.value;
            && regs[k].code != "" && regs[k].code <= nik
            && forall j :: 0 <= j < k ==> !(regs[j].code <= nik))
      && (m.province.Some? && m.regency.None? ==> var regs := table[m.province.value].regencies;
            forall k :: 0 <= k < |regs| && regs[k].code != "" && regs[k].code <= nik ==>
              exists j :: 0 <= j < k && regs[j].code == "")
      && (m.district.Some? ==>
            var dists := table[m.province.value].regencies[m.regency.value].districts; var d := m.district.value;
            && dists[d].code <= nik
            && forall j :: 0 <= j < d ==> !(dists[j].code <= nik))
      && (m.regency.Some? && m.district.None? ==>
            var dists := table[m.province.value].regencies[m.regency.value].districts;
            forall d :: 0 <= d < |dists| ==> !(dists[d].code <= nik))
  {
    var m := LocateRegion(table, nik);
    if m.province.Some? && m.regency.None? {
      var regs := table[m.province.value].regencies;
      forall k | 0 <= k < |regs| && regs[k].code != "" && regs[k].code <= nik
        ensures exists j :: 0 <= j < k && regs[j].code == ""
      {
        var f := FindRegency(regs, nik);
        assert f.Some? && f.value <= k;
        assert f.value != k;
        assert regs[f.value].code == "";
      }
    }
  }

  /** Entries after a match never change it: the search depends on table order. */
  lemma {:induction false} EarlierProvinceWins(t1: RegionTable, t2: RegionTable, code: string)
    requires FindProvince(t1, code).Some?
    ensures FindProvince(t1 + t2, code) == FindProvince(t1, code)
  {
    if !(code <= t1[0].code) {
      assert (t1 + t2)[1..] == t1[1..] + t2;
      EarlierProvinceWins(t1[1..], t2, code);
    }
  }

  /** A missing region file leaves every region field unknown. */
  lemma EmptyTableAllUnknown(nik: string, currentYear: nat)
    ensures var info := DecodeNik(nik, [], currentYear);
      info.province == Unknown && info.regency == Unknown && info.district == Unknown
  {
  }

  /** A NIK of the wrong length records only the NIK and three unknown region fields. */
  lemma WrongLengthNik(nik: string, table: RegionTable, currentYear: nat)
    requires |nik| != 16
    ensures NikSummary(DecodeNik(nik, table, currentYear))
      == [("nik", nik), ("provinsi", Unknown), ("kabupaten", Unknown), ("kecamatan", Unknown)]
  {
  }

  /** `int()` on two characters takes a sign or surrounding whitespace as well as two digits. */
  lemma IntOf2Forms()
    ensures IntOf2("07") == Some(7) && IntOf2("+7") == Some(7) && IntOf2("-7") == Some(-7)
    ensures IntOf2(" 7") == Some(7) && IntOf2("7 ") == Some(7)
    ensures IntOf2("7-") == None && IntOf2("--") == None && IntOf2("  ") == None
    ensures IntOf2("\t7") == Some(7) && IntOf2(['\U{1C}', '7']) == None
  {
  }

  /** Two padded digits read back as the number they show. */
  lemma TwoDigitsParses(n: nat)
    requires n < 100
    ensures IntOf2(TwoDigits(n)) == Some(n)
  {
  }

  /** A padded field reads back as the number it shows. */
  lemma Pad2Parses(n: int)
    requires -9 <= n <= 99
    ensures IntOf2(Pad2(n)) == Some(n)
  {
    if n >= 0 {
      TwoDigitsParses(n);
    }
  }

  /** The two halves of a four-digit year read back as its century and its last two digits. */
  lemma Digits4Parses(y: nat)
    requires 1000 <= y < 10000
    ensures IntOf2(Digits4(y)[0..2]) == Some(y / 100)
    ensures IntOf2(Digits4(y)[2..4]) == Some(y % 100)
  {
    var s := Digits4(y);
    assert s[0..2] == TwoDigits(y / 100);
    assert s[2..4] == TwoDigits(y % 100);
    TwoDigitsParses(y / 100);
    TwoDigitsParses(y % 100);
  }

  /** FormatDate and ParseDate are inverse: the date text holds exactly the day, month and year. */
  lemma DateRoundTrip(day: int, month: int, year: nat)
    requires -9 <= day <= 99 && -9 <= month <= 99 && 1000 <= year < 10000
    ensures ParseDate(FormatDate(day, month, year)) == Some((day, month, year))
  {
    var s := FormatDate(day, month, year);
    var a, b, c := Pad2(day), Pad2(month), Digits4(year);
    assert s == a + "-" + b + "-" + c;
    assert s[0..2] == a;
    assert s[3..5] == b;
    assert s[6..8] == c[0..2];
    assert s[8..10] == c[2..4];
    Pad2Parses(day);
    Pad2Parses(month);
    Digits4Parses(year);
  }

  /** Resolved against a current year of this century, a birth year is within the last hundred years. */
  lemma FullYearWindow(yy: nat, currentYear: nat)
    requires 0 <= yy < 100 && 2000 <= currentYear <= 2099
    ensures currentYear - 100 < FullYear(yy, currentYear) <= currentYear
  {
  }

  /** The value of the two ASCII digits at positions i and i + 1. */
  function TwoDigitsAt(s: string, i: nat): nat
    requires i + 1 < |s| && IsDigit(s[i]) && IsDigit(s[i + 1])
  {
    10 * DigitValue(s[i]) + DigitValue(s[i + 1])
  }

  /** Two digits at `i` are read as the number they show. */
  lemma IntOf2At(s: string, i: nat)
    requires i + 1 < |s| && IsDigit(s[i]) && IsDigit(s[i + 1])
    ensures IntOf2(s[i..i + 2]) == Some(TwoDigitsAt(s, i))
  {
    assert s[i..i + 2][0] == s[i] && s[i..i + 2][1] == s[i + 1];
  }

  /**
   * The birth fields are present when digits 7 to 12 are ASCII digits, and
   * absent when any of those characters is not something `int()` accepts.
   */
  lemma BirthPresence(nik: string, currentYear: nat)
    requires |nik| == 16
    ensures (forall i :: 6 <= i < 12 ==> IsDigit(nik[i])) ==> DecodeBirth(nik, currentYear).Some?
    ensures DecodeBirth(nik, currentYear).Some? ==> forall i :: 6 <= i < 12 ==> IntChar(nik[i])
  {
    assert nik[6..8][0] == nik[6] && nik[6..8][1] == nik[7];
    assert nik[8..10][0] == nik[8] && nik[8..10][1] == nik[9];
    assert nik[10..12][0] == nik[10] && nik[10..12][1] == nik[11];
  }

  /**
   * A day field above 40 means a woman born on that day minus 40; otherwise
   * a man born on that day. The date text shows that day, the month field
   * and the resolved year (DateRoundTrip reads them back).
   */
  lemma BirthFields(nik: string, currentYear: nat)
    requires |nik| == 16 && forall i :: 6 <= i < 12 ==> IsDigit(nik[i])
    ensures DecodeBirth(nik, currentYear).Some?
    ensures var b := DecodeBirth(nik, currentYear).value;
      var dd, mm, yy := TwoDigitsAt(nik, 6), TwoDigitsAt(nik, 8), TwoDigitsAt(nik, 10);
      && (b.gender == Female <==> dd > 40)
      && (b.gender == Male <==> dd <= 40)
      && b.date == FormatDate(if dd > 40 then dd - 40 else dd, mm, FullYear(yy, currentYear))
  {
    DigitsDecode(nik, currentYear);
  }

  /** With digits in the date positions, DecodeBirth reads the three two-digit numbers. */
  lemma DigitsDecode(nik: string, currentYear: nat)
    requires |nik| == 16 && forall i :: 6 <= i < 12 ==> IsDigit(nik[i])
    ensures DecodeBirth(nik, currentYear)
      == Some(BirthOf(TwoDigitsAt(nik, 6), TwoDigitsAt(nik, 8), TwoDigitsAt(nik, 10), currentYear))
  {
    IntOf2At(nik, 6);
    IntOf2At(nik, 8);
    IntOf2At(nik, 10);
  }

  /** The usage example `3275124308050003`: born 3 August 2005, a woman. */
  lemma UsageExampleDecoded(currentYear: nat)
    requires 2005 <= currentYear <= 2099
    ensures DecodeBirth("3275124308050003", currentYear) == Some(Birth("03-08-2005", Female))
  {
    var nik := "3275124308050003";
    assert nik[6..8] == "43" && nik[8..10] == "08" && nik[10..12] == "05";
    assert FullYear(5, currentYear) == 2005;
    assert FormatDate(3, 8, 2005) == "03-08-2005";
  }
}
