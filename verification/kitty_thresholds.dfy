/**
 * The brightness threshold table of the Kitty adapter: the loader that turns
 * the dataset's lines into two lookup maps (by sequential id and by
 * lower-case name), and the lookup from an image path to a brightness score.
 *
 * Float parsing is a parameter `parseFloat`: a partial parse that yields a
 * real number or nothing.  The dataset is given as its lines; reading the
 * file and memoising the result are not part of this model.
 */
module KittyThresholds {
  import opened PyText

  /** One accepted dataset line: the lower-cased creature name and its score. */
  datatype Entry = Entry(name: string, threshold: real)

  /** The loader's result: scores by sequential id ("001", "002", ...) and by lower-case name. */
  datatype Thresholds = Thresholds(byId: map<string, real>, byName: map<string, real>)

  /** The score of an image that the table does not know. */
  const NeutralThreshold: real := 0.5

  /** A line is kept when it has at least two tokens and the second one parses as a float. */
  function ParseLine(line: string, parseFloat: string -> Option<real>): (r: Option<Entry>)
    ensures r.Some? <==> |Split(line)| >= 2 && parseFloat(Split(line)[1]).Some?
    ensures r.Some? ==> r.value.threshold == parseFloat(Split(line)[1]).value
    ensures r.Some? ==> Lower(r.value.name) == r.value.name
  {
    var tokens := Split(line);
    if |tokens| < 2 then None
    else
      match parseFloat(tokens[1])
      case None => None
      case Some(score) =>
        LowerIdempotent(tokens[0]);
        Some(Entry(Lower(tokens[0]), score))
  }

  /** The accepted lines, in dataset order. */
  function Accepted(lines: seq<string>, parseFloat: string -> Option<real>): (r: seq<Entry>)
    ensures |r| <= |lines|
    ensures forall k :: 0 <= k < |r| ==> Lower(r[k].name) == r[k].name
    decreases |lines|
  {
    if lines == [] then []
    else
      var earlier := Accepted(lines[..|lines| - 1], parseFloat);
      match ParseLine(lines[|lines| - 1], parseFloat)
      case None => earlier
      case Some(e) => earlier + [e]
  }

  /** The id key of the k-th accepted line, `f"{k:03d}"`. */
  function IdKey(k: nat): string {
    ZFill(Decimal(k), 3)
  }

  /** The id map built from the accepted lines: the k-th one under `IdKey(k)`. */
  function IdTable(acc: seq<Entry>): (r: map<string, real>)
    ensures forall k :: 1 <= k <= |acc| ==> IdKey(k) in r
    decreases |acc|
  {
    if acc == [] then map[]
    else IdTable(acc[..|acc| - 1])[IdKey(|acc|) := acc[|acc| - 1].threshold]
  }

  /** The name map built from the accepted lines: a later line overwrites an earlier one. */
  function NameTable(acc: seq<Entry>): (r: map<string, real>)
    ensures |r| <= |acc|
    ensures forall k :: 0 <= k < |acc| ==> acc[k].name in r
    decreases |acc|
  {
    if acc == [] then map[]
    else NameTable(acc[..|acc| - 1])[acc[|acc| - 1].name := acc[|acc| - 1].threshold]
  }

  /**
   * The two maps the loader returns.  Every line that parses can be found by
   * its name, and every name in the table is in lower case.
   */
  function LoadedTable(lines: seq<string>, parseFloat: string -> Option<real>): (t: Thresholds)
    ensures forall i :: 0 <= i < |lines| && ParseLine(lines[i], parseFloat).Some? ==>
      ParseLine(lines[i], parseFloat).value.name in t.byName
    ensures forall name :: name in t.byName ==> Lower(name) == name
  {
    var acc := Accepted(lines, parseFloat);
    ParsedLinesAccepted(lines, parseFloat);
    NameTableLowerKeys(acc);
    Thresholds(IdTable(acc), NameTable(acc))
  }

  /** Every line that parses contributes its entry to the accepted lines. */
  lemma {:induction false} ParsedLinesAccepted(lines: seq<string>, parseFloat: string -> Option<real>)
    ensures forall i :: 0 <= i < |lines| && ParseLine(lines[i], parseFloat).Some? ==>
      ParseLine(lines[i], parseFloat).value in Accepted(lines, parseFloat)
    decreases |lines|
  {
    if lines != [] {
      var n := |lines|;
      var earlier := lines[..n - 1];
      ParsedLinesAccepted(earlier, parseFloat);
      var before := Accepted(earlier, parseFloat);
      var all := Accepted(lines, parseFloat);
      assert forall e :: e in before ==> e in all;
      forall i | 0 <= i < n && ParseLine(lines[i], parseFloat).Some?
        ensures ParseLine(lines[i], parseFloat).value in all
      {
        if i < n - 1 {
          assert lines[i] == earlier[i];
        } else {
          assert all == before + [ParseLine(lines[i], parseFloat).value];
        }
      }
    }
  }

  /** The names in the name map are those of accepted lines, so they are in lower case. */
  lemma NameTableLowerKeys(acc: seq<Entry>)
    requires forall k :: 0 <= k < |acc| ==> Lower(acc[k].name) == acc[k].name
    ensures forall name :: name in NameTable(acc) ==> Lower(name) == name
  {
    forall name | name in NameTable(acc)
      ensures Lower(name) == name
    {
      NameTableKeys(acc, name);
    }
  }

  /** `_load_dark_thresholds`: one pass over the lines, filling both maps and counting accepted lines. */
  method LoadDarkThresholds(lines: seq<string>, parseFloat: string -> Option<real>) returns (t: Thresholds)
    ensures t == LoadedTable(lines, parseFloat)
    ensures var acc := Accepted(lines, parseFloat);
      forall k :: 1 <= k <= |acc| ==> IdKey(k) in t.byId && t.byId[IdKey(k)] == acc[k - 1].threshold
  {
    var byId: map<string, real> := map[];
    var byName: map<string, real> := map[];
    var idCounter := 1;
    ghost var acc: seq<Entry> := [];
    for i := 0 to |lines|
      invariant acc == Accepted(lines[..i], parseFloat)
      invariant idCounter == |acc| + 1
      invariant byId == IdTable(acc) && byName == NameTable(acc)
    {
      AcceptedStep(lines, i, parseFloat);
      var pokemonData := Split(lines[i]);
      if |pokemonData| < 2 {
        assert ParseLine(lines[i], parseFloat).None?;
        continue;
      }
      var name := Lower(pokemonData[0]);
      var parsed := parseFloat(pokemonData[1]);
      if parsed.None? {
        assert ParseLine(lines[i], parseFloat).None?;
        continue;
      }
      var threshold := parsed.value;
      assert ParseLine(lines[i], parseFloat) == Some(Entry(name, threshold));
      TablesSnoc(acc, Entry(name, threshold));
      byName := byName[name := threshold];
      byId := byId[IdKey(idCounter) := threshold];
      idCounter := idCounter + 1;
      acc := acc + [Entry(name, threshold)];
    }
    assert lines[..|lines|] == lines;
    t := Thresholds(byId, byName);
    forall k | 1 <= k <= |Accepted(lines, parseFloat)|
      ensures IdKey(k) in t.byId && t.byId[IdKey(k)] == Accepted(lines, parseFloat)[k - 1].threshold
    {
      IdTableLookup(Accepted(lines, parseFloat), k);
    }
  }

  /** `_infer_dark_threshold`: an all-digit stem is looked up by id, any other stem by name. */
  function InferDarkThreshold(table: Thresholds, path: string): (r: real)
    ensures r == NeutralThreshold || r in table.byId.Values || r in table.byName.Values
  {
    var stem := Lower(Stem(path));
    if AllDigits(stem) then
      var key := ZFill(stem, 3);
      if key in table.byId then table.byId[key] else NeutralThreshold
    else
      var key := if Contains(stem, "-") then BeforeFirst(stem, '-') else stem;
      if key in table.byName then table.byName[key] else NeutralThreshold
  }

  // ---------------------------------------------------------------------
  // The loader

  lemma TablesSnoc(acc: seq<Entry>, e: Entry)
    ensures IdTable(acc + [e]) == IdTable(acc)[IdKey(|acc| + 1) := e.threshold]
    ensures NameTable(acc + [e]) == NameTable(acc)[e.name := e.threshold]
  {
    var s := acc + [e];
    assert s != [] && s[..|s| - 1] == acc && s[|s| - 1] == e;
    assert IdTable(s) == IdTable(s[..|s| - 1])[IdKey(|s|) := s[|s| - 1].threshold];
    assert NameTable(s) == NameTable(s[..|s| - 1])[s[|s| - 1].name := s[|s| - 1].threshold];
  }

  lemma AcceptedStep(lines: seq<string>, i: nat, parseFloat: string -> Option<real>)
    requires i < |lines|
    ensures Accepted(lines[..i + 1], parseFloat) ==
      match ParseLine(lines[i], parseFloat)
      case None => Accepted(lines[..i], parseFloat)
      case Some(e) => Accepted(lines[..i], parseFloat) + [e]
  {
    assert lines[..i + 1][..i] == lines[..i];
  }

  /** Accepting lines is compositional: the lines of a concatenation are accepted independently. */
  lemma {:induction false} AcceptedAppend(a: seq<string>, b: seq<string>, parseFloat: string -> Option<real>)
    ensures Accepted(a + b, parseFloat) == Accepted(a, parseFloat) + Accepted(b, parseFloat)
    decreases |b|
  {
    if b == [] {
      assert a + b == a;
    } else {
      var b' := b[..|b| - 1];
      assert (a + b)[..|a + b| - 1] == a + b';
      assert (a + b)[|a + b| - 1] == b[|b| - 1];
      AcceptedAppend(a, b', parseFloat);
    }
  }

  /** A malformed line is skipped and consumes no id: removing it changes neither map. */
  lemma MalformedLineConsumesNoId(a: seq<string>, bad: string, b: seq<string>, parseFloat: string -> Option<real>)
    requires ParseLine(bad, parseFloat).None?
    ensures LoadedTable(a + [bad] + b, parseFloat) == LoadedTable(a + b, parseFloat)
  {
    AcceptedAppend(a + [bad], b, parseFloat);
    AcceptedAppend(a, [bad], parseFloat);
    AcceptedAppend(a, b, parseFloat);
    assert [bad][..0] == [];
    assert Accepted([bad], parseFloat) == [];
  }

  lemma IdKeyInjective(k: nat, n: nat)
    requires k != n
    ensures IdKey(k) != IdKey(n)
  {
    if IdKey(k) == IdKey(n) {
      ZFillDecimalInjective(k, n, 3);
    }
  }

  /** The k-th accepted line is stored under `IdKey(k)`: no later line overwrites it. */
  lemma {:induction false} IdTableLookup(acc: seq<Entry>, k: nat)
    requires 1 <= k <= |acc|
    ensures IdKey(k) in IdTable(acc) && IdTable(acc)[IdKey(k)] == acc[k - 1].threshold
    decreases |acc|
  {
    var n := |acc|;
    if k < n {
      IdKeyInjective(k, n);
      IdTableLookup(acc[..n - 1], k);
    }
  }

  /** The id map holds no key other than `IdKey(1)` .. `IdKey(|acc|)`. */
  lemma {:induction false} IdTableKeys(acc: seq<Entry>, key: string)
    requires key in IdTable(acc)
    ensures exists k :: 1 <= k <= |acc| && key == IdKey(k)
    decreases |acc|
  {
    var n := |acc|;
    if key != IdKey(n) {
      IdTableKeys(acc[..n - 1], key);
    }
  }

  /** Entry i is the last accepted line named `name`. */
  predicate IsLastWithName(acc: seq<Entry>, i: int, name: string) {
    0 <= i < |acc| && acc[i].name == name && forall j :: i < j < |acc| ==> acc[j].name != name
  }

  /** A name is in the name map iff some accepted line has it, and its score is that of the last such line. */
  lemma NameTableLookup(acc: seq<Entry>, name: string)
    ensures name in NameTable(acc) <==> exists i :: 0 <= i < |acc| && acc[i].name == name
    ensures forall i :: IsLastWithName(acc, i, name) ==> name in NameTable(acc) && NameTable(acc)[name] == acc[i].threshold
  {
    NameTableKeys(acc, name);
    forall i | IsLastWithName(acc, i, name)
      ensures name in NameTable(acc) && NameTable(acc)[name] == acc[i].threshold
    {
      NameTableLast(acc, i, name);
    }
  }

  /** The name map's keys are the names of the accepted lines. */
  lemma {:induction false} NameTableKeys(acc: seq<Entry>, name: string)
    ensures name in NameTable(acc) <==> exists i :: 0 <= i < |acc| && acc[i].name == name
    decreases |acc|
  {
    if acc != [] {
      var n := |acc|;
      var earlier := acc[..n - 1];
      NameTableKeys(earlier, name);
      if acc[n - 1].name != name && exists i :: 0 <= i < n && acc[i].name == name {
        var i :| 0 <= i < n && acc[i].name == name;
        assert earlier[i].name == name;
      }
    }
  }

  /** The last accepted line with a name decides that name's score. */
  lemma {:induction false} NameTableLast(acc: seq<Entry>, i: int, name: string)
    requires IsLastWithName(acc, i, name)
    ensures name in NameTable(acc) && NameTable(acc)[name] == acc[i].threshold
    decreases |acc|
  {
    var n := |acc|;
    var earlier := acc[..n - 1];
    if i < n - 1 {
      assert earlier[i] == acc[i];
      assert IsLastWithName(earlier, i, name);
      NameTableLast(earlier, i, name);
    }
  }

  // ---------------------------------------------------------------------
  // The lookup

  /** A miss in the map that the stem selects yields exactly the neutral 0.5. */
  lemma LookupMissIsNeutral(table: Thresholds, path: string)
    requires var stem := Lower(Stem(path));
      if AllDigits(stem) then ZFill(stem, 3) !in table.byId
      else BeforeFirst(stem, '-') !in table.byName
    ensures InferDarkThreshold(table, path) == NeutralThreshold
  {
    if !AllDigits(Lower(Stem(path))) {
      InferByName(table, path);
    }
  }

  /** For a stem that is not all digits, the lookup reads the name map under the text before the first '-'. */
  lemma InferByName(table: Thresholds, path: string)
    requires !AllDigits(Lower(Stem(path)))
    ensures var key := BeforeFirst(Lower(Stem(path)), '-');
      InferDarkThreshold(table, path) == if key in table.byName then table.byName[key] else NeutralThreshold
  {
    var stem := Lower(Stem(path));
    ContainsChar(stem, '-');
    assert stem[..|stem|] == stem;
  }

  /** An all-digit stem reads only the id map; any other stem reads only the name map. */
  lemma LookupReadsOneMap(t1: Thresholds, t2: Thresholds, path: string)
    requires AllDigits(Lower(Stem(path))) ==> t1.byId == t2.byId
    requires !AllDigits(Lower(Stem(path))) ==> t1.byName == t2.byName
    ensures InferDarkThreshold(t1, path) == InferDarkThreshold(t2, path)
  {
  }

  /** Two digit strings of the same length that denote the same number are equal. */
  lemma {:induction false} DigitStringsEqual(s: string, t: string)
    requires |s| == |t|
    requires forall i :: 0 <= i < |s| ==> IsDigit(s[i])
    requires forall i :: 0 <= i < |t| ==> IsDigit(t[i])
    requires DecimalValue(s) == DecimalValue(t)
    ensures s == t
    decreases |s|
  {
    if s != [] {
      var n := |s|;
      var ds := s[n - 1] as int - '0' as int;
      var dt := t[n - 1] as int - '0' as int;
      assert DecimalValue(s) == DecimalValue(s[..n - 1]) * 10 + ds;
      assert DecimalValue(t) == DecimalValue(t[..n - 1]) * 10 + dt;
      assert ds == dt && DecimalValue(s[..n - 1]) == DecimalValue(t[..n - 1]);
      DigitStringsEqual(s[..n - 1], t[..n - 1]);
      assert s == s[..n - 1] + [s[n - 1]];
      assert t == t[..n - 1] + [t[n - 1]];
    }
  }

  /** A stem of up to three digits denoting k is padded to exactly the key the k-th line got. */
  lemma PaddedStemIsIdKey(s: string)
    requires AllDigits(s) && |s| <= 3
    ensures ZFill(s, 3) == IdKey(DecimalValue(s))
  {
    var k := DecimalValue(s);
    PaddedDigits(s, 3);
    ShortNumeral(s);
    ZFillValue(k, 3);
    DigitStringsEqual(ZFill(s, 3), IdKey(k));
  }

  /** Zero-padding a digit string keeps it a digit string denoting the same number. */
  lemma PaddedDigits(s: string, width: nat)
    requires forall i :: 0 <= i < |s| ==> IsDigit(s[i])
    ensures forall i :: 0 <= i < |ZFill(s, width)| ==> IsDigit(ZFill(s, width)[i])
    ensures DecimalValue(ZFill(s, width)) == DecimalValue(s)
  {
    if |s| < width {
      LeadingZerosValue(seq(width - |s|, _ => '0'), s);
    }
  }

  /** The number a numeral of at most three digits denotes is written back in at most three. */
  lemma ShortNumeral(s: string)
    requires AllDigits(s) && |s| <= 3
    ensures |Decimal(DecimalValue(s))| <= 3
  {
    var k := DecimalValue(s);
    DecimalValueBound(s);
    Pow10Monotone(|s|, 3);
    DecimalLength(k);
    if |Decimal(k)| > 3 {
      Pow10Monotone(3, |Decimal(k)| - 1);
    }
  }

  lemma LowerDigits(s: string)
    requires AllDigits(s)
    ensures Lower(s) == s
  {
  }

  /** An image named by a one- to three-digit id k gets the score of the k-th accepted dataset line. */
  lemma LoadedIdLookup(lines: seq<string>, parseFloat: string -> Option<real>, dir: string, id: string, ext: string)
    requires AllDigits(id) && |id| <= 3
    requires 1 <= DecimalValue(id) <= |Accepted(lines, parseFloat)|
    requires |ext| > 0 && forall j :: 0 <= j < |ext| ==> ext[j] != '/' && ext[j] != '.'
    ensures InferDarkThreshold(LoadedTable(lines, parseFloat), JoinFile(dir, id, ext))
      == Accepted(lines, parseFloat)[DecimalValue(id) - 1].threshold
  {
    var path := JoinFile(dir, id, ext);
    var table := LoadedTable(lines, parseFloat);
    StemOfPath(dir, id, ext);
    LowerDigits(id);
    assert Lower(Stem(path)) == id;
    PaddedStemIsIdKey(id);
    IdTableLookup(Accepted(lines, parseFloat), DecimalValue(id));
    assert InferDarkThreshold(table, path) == table.byId[IdKey(DecimalValue(id))];
  }

  lemma HyphenPrefixKey(name: string, variant: string)
    requires forall j :: 0 <= j < |name| ==> name[j] != '-'
    ensures BeforeFirst(name + "-" + variant, '-') == name
  {
    var s := name + "-" + variant;
    assert s[|name|] == '-';
    assert IndexOrEnd(s, '-', 0) == |name|;
    assert s[..|name|] == name;
  }

  lemma NoHyphenKey(name: string)
    requires forall j :: 0 <= j < |name| ==> name[j] != '-'
    ensures BeforeFirst(name, '-') == name
  {
    assert IndexOrEnd(name, '-', 0) == |name|;
    assert name[..|name|] == name;
  }

  /** An image named after a creature gets the score of the last accepted line with that name. */
  lemma LoadedNameLookup(lines: seq<string>, parseFloat: string -> Option<real>, dir: string,
                         name: string, ext: string, i: nat)
    requires |name| > 0 && Lower(name) == name && !AllDigits(name)
    requires forall j :: 0 <= j < |name| ==> name[j] != '/' && name[j] != '-'
    requires |ext| > 0 && forall j :: 0 <= j < |ext| ==> ext[j] != '/' && ext[j] != '.'
    requires IsLastWithName(Accepted(lines, parseFloat), i, name)
    ensures InferDarkThreshold(LoadedTable(lines, parseFloat), JoinFile(dir, name, ext))
      == Accepted(lines, parseFloat)[i].threshold
  {
    NameTableLookup(Accepted(lines, parseFloat), name);
    StemOfPath(dir, name, ext);
    InferByName(LoadedTable(lines, parseFloat), JoinFile(dir, name, ext));
    NoHyphenKey(name);
  }

  /**
   * A "-variant" suffix on the file name does not change the lookup: "025-alt" reads the name map
   * under "025", never the id map.
   */
  lemma VariantStemLooksUpName(table: Thresholds, dir: string, name: string, variant: string, ext: string)
    requires forall j :: 0 <= j < |name| ==> name[j] != '/' && name[j] != '-'
    requires forall j :: 0 <= j < |variant| ==> variant[j] != '/'
    requires |ext| > 0 && forall j :: 0 <= j < |ext| ==> ext[j] != '/' && ext[j] != '.'
    ensures var key := Lower(name);
      InferDarkThreshold(table, JoinFile(dir, name + "-" + variant, ext))
      == if key in table.byName then table.byName[key] else NeutralThreshold
  {
    var long := name + "-" + variant;
    var path := JoinFile(dir, long, ext);
    VariantHasNoSlash(name, variant);
    StemOfPath(dir, long, ext);
    VariantStemKey(name, variant);
    InferByName(table, path);
  }

  lemma VariantHasNoSlash(name: string, variant: string)
    requires forall j :: 0 <= j < |name| ==> name[j] != '/'
    requires forall j :: 0 <= j < |variant| ==> variant[j] != '/'
    ensures var long := name + "-" + variant;
      |long| > 0 && forall j :: 0 <= j < |long| ==> long[j] != '/'
  {
    var long := name + "-" + variant;
    forall j | 0 <= j < |long|
      ensures long[j] != '/'
    {
      if j < |name| {
        assert long[j] == name[j];
      } else if j > |name| {
        assert long[j] == variant[j - |name| - 1];
      }
    }
  }

  lemma VariantStemKey(name: string, variant: string)
    requires forall j :: 0 <= j < |name| ==> name[j] != '-'
    ensures !AllDigits(Lower(name + "-" + variant))
    ensures BeforeFirst(Lower(name + "-" + variant), '-') == Lower(name)
  {
    LowerAppend(name, "-" + variant);
    LowerAppend("-", variant);
    var stem := Lower(name + "-" + variant);
    assert stem == Lower(name) + "-" + Lower(variant);
    assert stem[|name|] == '-';
    HyphenPrefixKey(Lower(name), Lower(variant));
  }

  lemma LowerAppend(a: string, b: string)
    ensures Lower(a + b) == Lower(a) + Lower(b)
  {
    var l := Lower(a + b);
    var r := Lower(a) + Lower(b);
    forall i | 0 <= i < |a + b|
      ensures l[i] == r[i]
    {
      if i < |a| {
        assert (a + b)[i] == a[i];
      } else {
        assert (a + b)[i] == b[i - |a|];
      }
    }
  }
}
