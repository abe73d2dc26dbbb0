/** Helper functions of the extractor (utils.py): value stringification,
    file-name sanitising and naming, and property resolution over an element's
    property sets. */
module Utils {
  import opened Wrappers
  import opened Constants

  /** The sentinel the extractor writes for a missing or null value. */
  const NotAvailable: string := "N/A"

  /** A stored property value: `None` for Python's None, otherwise `Some(s)`
      where `s` is the value's `str()` form. */
  type Value = Option<string>

  // ---------------------------------------------------------------------------
  // safe_str (utils.py:21-25)
  // ---------------------------------------------------------------------------

  /** `None` becomes the sentinel, any other value its string form; so the
      result is a real value exactly when a value is stored and it is not the
      sentinel text itself. */
  function SafeStr(v: Value): (r: string)
    ensures v.None? ==> r == NotAvailable
    ensures v.Some? ==> r == v.value
    ensures r != NotAvailable <==> v.Some? && v.value != NotAvailable
  {
    match v
    case None => NotAvailable
    case Some(s) => s
  }

  // ---------------------------------------------------------------------------
  // str.strip() with no argument
  // ---------------------------------------------------------------------------

  /** Python's whitespace: the characters for which `str.isspace()` holds and
      which `str.strip()` removes. */
  predicate IsSpace(c: char) {
    var n := c as int;
    || 0x09 <= n <= 0x0D
    || 0x1C <= n <= 0x20
    || n == 0x85 || n == 0xA0 || n == 0x1680
    || 0x2000 <= n <= 0x200A
    || n == 0x2028 || n == 0x2029 || n == 0x202F || n == 0x205F || n == 0x3000
  }

  /** Length of the whitespace run at the start of `s`. */
  function LeadingSpaces(s: string): (n: nat)
    ensures n <= |s|
  {
    if s != [] && IsSpace(s[0]) then 1 + LeadingSpaces(s[1..]) else 0
  }

  /** The leading run is all whitespace and ends at a non-space. */
  lemma {:induction false} LeadingSpacesRun(s: string)
    ensures forall i :: 0 <= i < LeadingSpaces(s) ==> IsSpace(s[i])
    ensures LeadingSpaces(s) < |s| ==> !IsSpace(s[LeadingSpaces(s)])
  {
    if s != [] && IsSpace(s[0]) {
      LeadingSpacesRun(s[1..]);
      assert forall i :: 1 <= i < |s| ==> s[i] == s[1..][i - 1];
    }
  }

  /** Length of the whitespace run at the end of `s`. */
  function TrailingSpaces(s: string): (n: nat)
    ensures n <= |s|
  {
    if s != [] && IsSpace(s[|s| - 1]) then 1 + TrailingSpaces(s[..|s| - 1]) else 0
  }

  /** The trailing run is all whitespace and starts after a non-space. */
  lemma {:induction false} TrailingSpacesRun(s: string)
    ensures forall i :: |s| - TrailingSpaces(s) <= i < |s| ==> IsSpace(s[i])
    ensures TrailingSpaces(s) < |s| ==> !IsSpace(s[|s| - 1 - TrailingSpaces(s)])
  {
    if s != [] && IsSpace(s[|s| - 1]) {
      TrailingSpacesRun(s[..|s| - 1]);
    }
  }

  /** `s.strip()`: `s` without the whitespace at either end. */
  function Strip(s: string): (r: string)
    ensures |r| <= |s|
  {
    var lo := LeadingSpaces(s);
    var rest := s[lo..];
    rest[..|rest| - TrailingSpaces(rest)]
  }

  /** The stripped string is a window of `s` with only whitespace outside it
      and none at its ends; it is empty exactly when `s` is all whitespace. */
  lemma StripWindow(s: string)
    ensures var r, lo := Strip(s), LeadingSpaces(s);
      && lo + |r| <= |s|
      && r == s[lo..lo + |r|]
      && (forall i :: 0 <= i < lo || lo + |r| <= i < |s| ==> IsSpace(s[i]))
      && (r != [] ==> !IsSpace(r[0]) && !IsSpace(r[|r| - 1]))
      && (r == [] <==> forall i :: 0 <= i < |s| ==> IsSpace(s[i]))
  {
    var lo := LeadingSpaces(s);
    var rest := s[lo..];
    var r := Strip(s);
    StripSlices(s);
    assert r == [] <==> forall i :: 0 <= i < |s| ==> IsSpace(s[i]) by {
      if r == [] {
        assert forall i :: 0 <= i < |s| ==> IsSpace(s[i]);
      } else {
        assert !IsSpace(s[lo]);
      }
    }
  }

  /** The slices behind `Strip`: the leading run, the kept window and the
      trailing run. */
  lemma StripSlices(s: string)
    ensures var r, lo := Strip(s), LeadingSpaces(s);
      && lo + |r| <= |s|
      && r == s[lo..lo + |r|]
      && (forall i :: 0 <= i < lo || lo + |r| <= i < |s| ==> IsSpace(s[i]))
      && (r != [] ==> !IsSpace(r[0]) && !IsSpace(r[|r| - 1]) && r[0] == s[lo])
  {
    StripIsSlice(s);
    StripOutside(s);
    StripEnds(s);
  }

  /** The stripped string is the slice of `s` after the leading run. */
  lemma StripIsSlice(s: string)
    ensures var r, lo := Strip(s), LeadingSpaces(s);
      lo + |r| <= |s| && r == s[lo..lo + |r|]
  {
  }

  /** Everything outside the stripped window is whitespace. */
  lemma StripOutside(s: string)
    ensures var r, lo := Strip(s), LeadingSpaces(s);
      forall i :: 0 <= i < lo || lo + |r| <= i < |s| ==> IsSpace(s[i])
  {
    var lo := LeadingSpaces(s);
    var rest := s[lo..];
    LeadingSpacesRun(s);
    TrailingSpacesRun(rest);
    assert forall i :: lo <= i < |s| ==> s[i] == rest[i - lo];
  }

  /** The stripped string neither starts nor ends with whitespace. */
  lemma StripEnds(s: string)
    ensures var r, lo := Strip(s), LeadingSpaces(s);
      r != [] ==> !IsSpace(r[0]) && !IsSpace(r[|r| - 1]) && r[0] == s[lo]
  {
    var lo := LeadingSpaces(s);
    var rest := s[lo..];
    var t := TrailingSpaces(rest);
    var r := Strip(s);
    if r != [] {
      LeadingSpacesRun(s);
      TrailingSpacesRun(rest);
      assert r[0] == rest[0] == s[lo] && r[|r| - 1] == rest[|rest| - 1 - t];
    }
  }

  /** `Strip` leaves a string unchanged exactly when it has no whitespace at
      either end, so stripping twice is stripping once. */
  lemma StripFixedPoint(s: string)
    ensures Strip(s) == s <==> s == [] || (!IsSpace(s[0]) && !IsSpace(s[|s| - 1]))
    ensures Strip(Strip(s)) == Strip(s)
  {
    var r := Strip(s);
    StripWindow(s);
    StripWindow(r);
    if s != [] && !IsSpace(s[0]) && !IsSpace(s[|s| - 1]) {
      assert LeadingSpaces(s) == 0;
      assert |r| == |s|;
    }
    if r != [] {
      assert LeadingSpaces(r) == 0;
      var rest := r[LeadingSpaces(r)..];
      assert rest == r;
      assert TrailingSpaces(rest) == 0;
    }
  }

  // ---------------------------------------------------------------------------
  // clean_filename (utils.py:28-30)
  // ---------------------------------------------------------------------------

  /** One character of `clean_filename`'s substitution. */
  function CleanChar(c: char): (r: char)
    ensures r !in InvalidFilenameChars
  {
    if c in InvalidFilenameChars then '_' else c
  }

  /** Every invalid file-name character replaced by `_`, every other character
      kept: same length, and no invalid character left. */
  function CleanFilename(name: string): (r: string)
    ensures |r| == |name|
  {
    seq(|name|, i requires 0 <= i < |name| => CleanChar(name[i]))
  }

  /** Cleaning replaces each invalid character by `_`, keeps every other
      one, and leaves no invalid character. */
  lemma CleanFilenameSpec(name: string)
    ensures var r := CleanFilename(name);
      && (forall i :: 0 <= i < |name| ==> name[i] in InvalidFilenameChars ==> r[i] == '_')
      && (forall i :: 0 <= i < |name| ==> name[i] !in InvalidFilenameChars ==> r[i] == name[i])
      && (forall i :: 0 <= i < |r| ==> r[i] !in InvalidFilenameChars)
  {
  }

  /** A name is left unchanged exactly when it holds no invalid character;
      hence cleaning is idempotent. */
  lemma CleanFilenameFixedPoint(name: string)
    ensures CleanFilename(name) == name <==> forall i :: 0 <= i < |name| ==> name[i] !in InvalidFilenameChars
    ensures CleanFilename(CleanFilename(name)) == CleanFilename(name)
  {
    var r := CleanFilename(name);
    if forall i :: 0 <= i < |name| ==> name[i] !in InvalidFilenameChars {
      assert forall i :: 0 <= i < |name| ==> r[i] == name[i];
    }
    var rr := CleanFilename(r);
    assert forall i :: 0 <= i < |r| ==> rr[i] == r[i];
  }

  // ---------------------------------------------------------------------------
  // The date stamp: datetime.now().strftime(DATE_FORMAT)
  // ---------------------------------------------------------------------------

  type Month = m: int | 1 <= m <= 12 witness 1
  type DayOfMonth = d: int | 1 <= d <= 31 witness 1

  /** The part of the clock reading that the file name uses. */
  datatype Date = Date(month: Month, day: DayOfMonth)

  predicate IsDigit(c: char) {
    '0' <= c <= '9'
  }

  function DigitChar(d: int): (c: char)
    requires 0 <= d <= 9
    ensures IsDigit(c) && c as int - '0' as int == d
  {
    ('0' as int + d) as char
  }

  /** strftime's zero-padded two-digit field. */
  function TwoDigits(n: int): (r: string)
    requires 0 <= n <= 99
    ensures |r| == 2 && IsDigit(r[0]) && IsDigit(r[1])
    ensures (r[0] as int - '0' as int) * 10 + (r[1] as int - '0' as int) == n
  {
    [DigitChar(n / 10), DigitChar(n % 10)]
  }

  /** Reads back a two-digit field. */
  function ParseTwoDigits(s: string): int
    requires |s| == 2
  {
    (s[0] as int - '0' as int) * 10 + (s[1] as int - '0' as int)
  }

  /** strftime restricted to the directives the date format uses: `%m`
      (month) and `%d` (day of month); any other character is copied. */
  function Strftime(format: string, date: Date): string
  {
    if format == [] then []
    else if |format| >= 2 && format[0] == '%' && format[1] == 'm' then
      TwoDigits(date.month) + Strftime(format[2..], date)
    else if |format| >= 2 && format[0] == '%' && format[1] == 'd' then
      TwoDigits(date.day) + Strftime(format[2..], date)
    else
      [format[0]] + Strftime(format[1..], date)
  }

  /** The date stamp `strftime(DATE_FORMAT)`. */
  function DateStamp(date: Date): string {
    Strftime(DateFormat, date)
  }

  /** The stamp is two digits, a hyphen and two digits, from which the month
      and the day are read back. */
  lemma DateStampLayout(date: Date)
    ensures var r := DateStamp(date);
      && |r| == 5 && r[2] == '-'
      && IsDigit(r[0]) && IsDigit(r[1]) && IsDigit(r[3]) && IsDigit(r[4])
      && ParseTwoDigits(r[..2]) == date.month && ParseTwoDigits(r[3..]) == date.day
  {
    var month, day := TwoDigits(date.month), TwoDigits(date.day);
    assert Strftime("%d", date) == day + Strftime("", date);
    assert Strftime("-%d", date) == "-" + Strftime("%d", date);
    assert Strftime(DateFormat, date) == month + Strftime("-%d", date);
  }

  // ---------------------------------------------------------------------------
  // make_output_filename (utils.py:39-43)
  // ---------------------------------------------------------------------------

  /** The base name used when the user's base name is blank. */
  const DefaultBaseName: string := "ifc_properties_export"

  /** `ext.lstrip('.')`: the extension without its leading dots. */
  function LStripDots(s: string): (r: string)
    ensures |r| <= |s| && (r == [] || r[0] != '.')
  {
    if s != [] && s[0] == '.' then LStripDots(s[1..]) else s
  }

  /** What `LStripDots` removes is a run of dots, and what it keeps is a
      suffix that does not start with one. */
  lemma {:induction false} LStripDotsSuffix(s: string)
    ensures var r := LStripDots(s);
      && |r| <= |s| && r == s[|s| - |r|..]
      && (forall i :: 0 <= i < |s| - |r| ==> s[i] == '.')
      && (r == [] || r[0] != '.')
  {
    if s != [] && s[0] == '.' {
      LStripDotsSuffix(s[1..]);
      var r := LStripDots(s);
      assert forall i :: 1 <= i < |s| - |r| ==> s[i] == s[1..][i - 1];
    }
  }

  /** The sanitised base: the stripped base name, or the default when that is
      empty, with invalid characters replaced. */
  function OutputStem(base: string): (r: string)
    ensures r != []
  {
    CleanFilename(if Strip(base) == [] then DefaultBaseName else Strip(base))
  }

  /** The stem is never empty and holds no invalid character. */
  lemma OutputStemClean(base: string)
    ensures OutputStem(base) != []
    ensures forall i :: 0 <= i < |OutputStem(base)| ==> OutputStem(base)[i] !in InvalidFilenameChars
  {
    assert |DefaultBaseName| > 0;
  }

  /** `make_output_filename`: `<stem>_<date stamp>.<extension>`. */
  function MakeOutputFilename(base: string, ext: string, date: Date): string {
    OutputStem(base) + "_" + DateStamp(date) + "." + LStripDots(ext)
  }

  /** The file name is the sanitised base (a non-empty stem free of invalid
      characters), an
      underscore, the `MM-DD` stamp of the date, a dot and the extension
      without its leading dots, so the stem, the date and the extension can
      be read back from it. */
  lemma OutputFilenameLayout(base: string, ext: string, date: Date)
    ensures var r, stem := MakeOutputFilename(base, ext, date), OutputStem(base);
      && |stem| > 0 && |r| == |stem| + 7 + |LStripDots(ext)|
      && r[..|stem|] == stem
      && (forall i :: 0 <= i < |stem| ==> r[i] !in InvalidFilenameChars)
      && r[|stem|] == '_' && r[|stem| + 6] == '.'
      && r[|stem| + 1..|stem| + 6] == DateStamp(date)
      && r[|stem| + 7..] == LStripDots(ext)
  {
    var stem, stamp, e := OutputStem(base), DateStamp(date), LStripDots(ext);
    OutputStemClean(base);
    DateStampLayout(date);
    var r := MakeOutputFilename(base, ext, date);
    assert r == stem + "_" + stamp + "." + e;
    assert forall i :: 0 <= i < |stem| ==> r[i] == stem[i];
    assert r[|stem| + 1..|stem| + 6] == stamp;
    assert r[|stem| + 7..] == e;
  }

  /** A base name that is already clean and trimmed is kept verbatim as the
      stem; a blank one gives the default stem. */
  lemma OutputStemCases(base: string)
    ensures (forall i :: 0 <= i < |base| ==> IsSpace(base[i])) ==> OutputStem(base) == DefaultBaseName
    ensures base != [] && !IsSpace(base[0]) && !IsSpace(base[|base| - 1])
            && (forall i :: 0 <= i < |base| ==> base[i] !in InvalidFilenameChars)
            ==> OutputStem(base) == base
  {
    StripWindow(base);
    CleanFilenameFixedPoint(DefaultBaseName);
    StripFixedPoint(base);
    CleanFilenameFixedPoint(base);
  }

  /** The worked example: base `My:Data*1` on 7 March with extension `xlsx`. */
  lemma OutputFilenameExample(base: string, ext: string, date: Date)
    requires base == "My:Data*1" && ext == "xlsx" && date == Date(3, 7)
    ensures MakeOutputFilename(base, ext, date) == "My_Data_1_03-07.xlsx"
  {
    var stem, stamp, e := OutputStem(base), DateStamp(date), LStripDots(ext);
    assert stem == "My_Data_1" by { ExampleStem(); }
    assert stamp == "03-07" by { ExampleStamp(); }
    assert e == "xlsx";
    assert MakeOutputFilename(base, ext, date) == stem + "_" + stamp + "." + e;
  }

  /** The stem of the worked example. */
  lemma ExampleStem()
    ensures OutputStem("My:Data*1") == "My_Data_1"
  {
    assert Strip("My:Data*1") == "My:Data*1" by { StripFixedPoint("My:Data*1"); }
    assert CleanFilename("My:Data*1") == "My_Data_1";
  }

  /** The stamp of 7 March. */
  lemma ExampleStamp()
    ensures DateStamp(Date(3, 7)) == "03-07"
  {
    assert ParseTwoDigits(DateStamp(Date(3, 7))[..2]) == 3;
  }

  // ---------------------------------------------------------------------------
  // Property sets and extract_property_from_psets (utils.py:90-102)
  // ---------------------------------------------------------------------------

  /** One property set: property names to values, in the dictionary's order. */
  type PropertySet = seq<(string, Value)>

  /** An element's property sets: set names to property sets, in the order in
      which the dictionary iterates them. */
  type PropertySets = seq<(string, PropertySet)>

  /** Keys of a dictionary are unique. */
  predicate UniqueKeys<V>(kvs: seq<(string, V)>) {
    forall i, j :: 0 <= i < j < |kvs| ==> kvs[i].0 != kvs[j].0
  }

  /** The shape of an element's property sets: set names unique, and property
      names unique within each set. */
  predicate WellFormed(psets: PropertySets) {
    UniqueKeys(psets) && forall i :: 0 <= i < |psets| ==> UniqueKeys(psets[i].1)
  }

  /** Dictionary lookup on an association list: `None` exactly when the key is
      absent, otherwise the value of its first occurrence. */
  function Lookup<V>(kvs: seq<(string, V)>, key: string): (r: Option<V>)
    ensures r.None? <==> forall i :: 0 <= i < |kvs| ==> kvs[i].0 != key
    ensures r.Some? ==> exists i :: 0 <= i < |kvs| && kvs[i] == (key, r.value)
                                && forall j :: 0 <= j < i ==> kvs[j].0 != key
  {
    if kvs == [] then None
    else if kvs[0].0 == key then Some(kvs[0].1)
    else Lookup(kvs[1..], key)
  }

  /** With unique keys the lookup finds the one entry stored under the key. */
  lemma {:induction false} LookupUnique<V>(kvs: seq<(string, V)>, key: string, v: V)
    requires UniqueKeys(kvs)
    requires (key, v) in kvs
    ensures Lookup(kvs, key) == Some(v)
  {
    if kvs[0].0 != key {
      assert UniqueKeys(kvs[1..]) by {
        forall i, j | 0 <= i < j < |kvs| - 1 ensures kvs[1..][i].0 != kvs[1..][j].0 {
          assert kvs[i + 1].0 != kvs[j + 1].0;
        }
      }
      LookupUnique(kvs[1..], key, v);
    }
  }

  /** Position of the first `.` in a request. */
  function FirstDot(s: string): (i: nat)
    requires '.' in s
    ensures i < |s| && s[i] == '.' && '.' !in s[..i]
  {
    if s[0] == '.' then 0
    else
      assert s == [s[0]] + s[1..];
      1 + FirstDot(s[1..])
  }

  /** `request.split('.', 1)`: the set name before the first dot and the
      property name after it. */
  function SplitFirstDot(s: string): (parts: (string, string))
    requires '.' in s
    ensures s == parts.0 + "." + parts.1
    ensures '.' !in parts.0
  {
    var i := FirstDot(s);
    assert s == s[..i] + "." + s[i + 1..];
    (s[..i], s[i + 1..])
  }

  /** Splitting inverts joining with a dot whenever the set name has no dot,
      so the property name keeps every later dot. */
  lemma SplitJoin(setName: string, propName: string)
    requires '.' !in setName
    ensures SplitFirstDot(setName + "." + propName) == (setName, propName)
  {
    var s := setName + "." + propName;
    var i := FirstDot(s);
    assert s[|setName|] == '.';
    assert i == |setName|;
    assert s[..i] == setName;
    assert s[i + 1..] == propName;
  }

  /** Unqualified search: the value in the first set that has the property,
      stringified; the sentinel when no set has it. */
  function SearchAll(psets: PropertySets, name: string): string
  {
    if psets == [] then NotAvailable
    else match Lookup(psets[0].1, name)
      case Some(v) => SafeStr(v)
      case None => SearchAll(psets[1..], name)
  }

  /** `extract_property_from_psets`: a request with a dot is looked up in the
      named set only; a request without one is searched across all sets. The
      result is always a string. */
  function ExtractProperty(psets: PropertySets, request: string): string
  {
    if '.' in request then
      var (setName, propName) := SplitFirstDot(request);
      match Lookup(psets, setName)
      case Some(props) =>
        // `if props:` -- an empty set is falsy
        if props != [] then SafeStr(Lookup(props, propName).GetOr(None)) else NotAvailable
      case None => NotAvailable
    else
      SearchAll(psets, request)
  }

  /** A qualified request `S.P` (S without a dot) yields the sentinel when set
      S is absent or empty, when P is absent from it or when P's value is
      null; otherwise the stored value. */
  lemma QualifiedRequest(psets: PropertySets, setName: string, propName: string)
    requires '.' !in setName
    ensures var r := ExtractProperty(psets, setName + "." + propName);
      var pset := Lookup(psets, setName);
      var found: Option<Value> := if pset.Some? then Lookup(pset.value, propName) else None;
      && (pset.None? ==> r == NotAvailable)
      && (pset == Some([]) ==> r == NotAvailable)
      && (found.None? ==> r == NotAvailable)
      && (found == Some(None) ==> r == NotAvailable)
      && (found.Some? && found.value.Some? ==> r == found.value.value)
  {
    SplitJoin(setName, propName);
  }

  /** In well-formed property sets, a qualified request finds the value stored
      under that set and property name. */
  lemma QualifiedRequestFindsStored(psets: PropertySets, setName: string, props: PropertySet,
                                    propName: string, v: Value)
    requires WellFormed(psets) && '.' !in setName
    requires (setName, props) in psets && (propName, v) in props
    ensures ExtractProperty(psets, setName + "." + propName) == SafeStr(v)
  {
    LookupUnique(psets, setName, props);
    var k :| 0 <= k < |psets| && psets[k] == (setName, props);
    assert UniqueKeys(psets[k].1);
    LookupUnique(props, propName, v);
    QualifiedRequest(psets, setName, propName);
  }

  /** The first set that holds the property. */
  predicate FirstHolder(psets: PropertySets, name: string, k: int) {
    && 0 <= k < |psets|
    && Lookup(psets[k].1, name).Some?
    && forall j :: 0 <= j < k ==> Lookup(psets[j].1, name).None?
  }

  /** An unqualified request returns the stringified value of the first set
      that contains the name (the sentinel if that value is null, whatever
      later sets hold), and the sentinel when no set contains it. */
  lemma {:induction false} UnqualifiedRequest(psets: PropertySets, name: string)
    requires '.' !in name
    ensures forall k :: FirstHolder(psets, name, k) ==>
              ExtractProperty(psets, name) == SafeStr(Lookup(psets[k].1, name).value)
    ensures (forall k :: 0 <= k < |psets| ==> Lookup(psets[k].1, name).None?) ==>
              ExtractProperty(psets, name) == NotAvailable
  {
    SearchAllFirst(psets, name);
  }

  lemma {:induction false} SearchAllFirst(psets: PropertySets, name: string)
    ensures forall k :: FirstHolder(psets, name, k) ==>
              SearchAll(psets, name) == SafeStr(Lookup(psets[k].1, name).value)
    ensures (forall k :: 0 <= k < |psets| ==> Lookup(psets[k].1, name).None?) ==>
              SearchAll(psets, name) == NotAvailable
  {
    if psets != [] {
      SearchAllFirst(psets[1..], name);
      forall k | FirstHolder(psets, name, k)
        ensures SearchAll(psets, name) == SafeStr(Lookup(psets[k].1, name).value)
      {
        if k > 0 {
          assert FirstHolder(psets[1..], name, k - 1) by {
            forall j | 0 <= j < k - 1 ensures Lookup(psets[1..][j].1, name).None? {
              assert psets[1..][j] == psets[j + 1];
            }
          }
        }
      }
      if forall k :: 0 <= k < |psets| ==> Lookup(psets[k].1, name).None? {
        assert Lookup(psets[0].1, name).None?;
        assert forall k :: 0 <= k < |psets| - 1 ==> psets[1..][k] == psets[k + 1];
      }
    }
  }

  /** The example collection `{"Pset_A": {"Mark": "X1"}}` answers
      `Pset_A.Mark` and `Mark` with `X1`, and `Pset_B.Mark` and `Missing` with
      the sentinel. */
  lemma ResolverExamples(psets: PropertySets, qualified: string, bare: string,
                         otherSet: string, missing: string)
    requires psets == [("Pset_A", [("Mark", Some("X1"))])]
    requires qualified == "Pset_A.Mark" && bare == "Mark"
    requires otherSet == "Pset_B.Mark" && missing == "Missing"
    ensures ExtractProperty(psets, qualified) == "X1"
    ensures ExtractProperty(psets, bare) == "X1"
    ensures ExtractProperty(psets, otherSet) == NotAvailable
    ensures ExtractProperty(psets, missing) == NotAvailable
  {
    QualifiedExample(psets, qualified);
    OtherSetExample(psets, otherSet);
    BareExample(psets, bare);
    MissingExample(psets, missing);
  }

  /** `Pset_A.Mark` finds `X1` in set `Pset_A`. */
  lemma QualifiedExample(psets: PropertySets, qualified: string)
    requires psets == [("Pset_A", [("Mark", Some("X1"))])]
    requires qualified == "Pset_A.Mark"
    ensures ExtractProperty(psets, qualified) == "X1"
  {
    assert qualified == "Pset_A" + "." + "Mark";
    QualifiedRequest(psets, "Pset_A", "Mark");
  }

  /** `Pset_B.Mark` names an absent set. */
  lemma OtherSetExample(psets: PropertySets, otherSet: string)
    requires psets == [("Pset_A", [("Mark", Some("X1"))])]
    requires otherSet == "Pset_B.Mark"
    ensures ExtractProperty(psets, otherSet) == NotAvailable
  {
    assert "Pset_A"[5] != "Pset_B"[5];
    assert otherSet == "Pset_B" + "." + "Mark";
    QualifiedRequest(psets, "Pset_B", "Mark");
  }

  /** `Mark` is found in the first set that holds it. */
  lemma BareExample(psets: PropertySets, bare: string)
    requires psets == [("Pset_A", [("Mark", Some("X1"))])]
    requires bare == "Mark"
    ensures ExtractProperty(psets, bare) == "X1"
  {
    UnqualifiedRequest(psets, bare);
    assert FirstHolder(psets, bare, 0);
  }

  /** `Missing` is held by no set. */
  lemma MissingExample(psets: PropertySets, missing: string)
    requires psets == [("Pset_A", [("Mark", Some("X1"))])]
    requires missing == "Missing"
    ensures ExtractProperty(psets, missing) == NotAvailable
  {
    assert |"Mark"| != |missing|;
    UnqualifiedRequest(psets, missing);
  }

  /** `A.B.C` asks set `A` for property `B.C`. */
  lemma SplitsAtFirstDotOnly(psets: PropertySets)
    requires psets == [("A", [("B.C", Some("v"))])]
    ensures ExtractProperty(psets, "A.B.C") == "v"
  {
    QualifiedRequest(psets, "A", "B.C");
  }

  /** A stored value whose text is the sentinel, a null value and an absent
      property all resolve alike, and a null in the first holder hides a real
      value in a later set. */
  lemma SentinelIsAmbiguous()
    ensures ExtractProperty([("S", [("P", Some(NotAvailable))])], "P") == NotAvailable
    ensures ExtractProperty([("S", [("P", None)])], "P") == NotAvailable
    ensures ExtractProperty([("S", [("Q", Some("x"))])], "P") == NotAvailable
    ensures ExtractProperty([("S", [("P", None)]), ("T", [("P", Some("x"))])], "P") == NotAvailable
  {
    UnqualifiedRequest([("S", [("P", Some(NotAvailable))])], "P");
    assert FirstHolder([("S", [("P", Some(NotAvailable))])], "P", 0);
    UnqualifiedRequest([("S", [("P", None)])], "P");
    assert FirstHolder([("S", [("P", None)])], "P", 0);
    UnqualifiedRequest([("S", [("Q", Some("x"))])], "P");
    var two: PropertySets := [("S", [("P", None)]), ("T", [("P", Some("x"))])];
    UnqualifiedRequest(two, "P");
    assert FirstHolder(two, "P", 0);
  }

  /** Every default request takes the unqualified branch. */
  lemma DefaultsSearchAllSets(psets: PropertySets)
    ensures forall p :: p in DefaultProperties ==> ExtractProperty(psets, p) == SearchAll(psets, p)
  {
    DefaultsAreUnqualified();
  }
}
