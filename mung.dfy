/** The value-cleaning filters of lib/mung.py and their composition `checkAndClean`.
    A filter is looked up by name in the `filtersAndChecks` table and either returns
    a cleaned value or raises. */
module Mung {
  import opened Wrappers

  /** A value as the filters see it. Spreadsheet cells arrive as strings; `NVto0`
      and `NoneTo0` turn some of them into the integer 0. */
  datatype Val = Text(s: string) | Num(n: int)

  /** Why a filter chain stopped. */
  datatype FilterError =
    | IncorrectFormat             // IncorrectFormatException
    | WrongType(filter: string)   // a string operation applied to a non-string (AttributeError, TypeError)
    | UnknownFilter(name: string) // no entry of that name in the table (KeyError)
    | FloatNotModelled            // the 'toFloat' entry converts to a float, which is not modelled

  /** The entries of the `filtersAndChecks` table. */
  datatype Filter =
    | Strip | UcsdIDCheck | EightChar | RemoveHash | ToUpper
    | NVto0 | NoneTo0 | StripDenominator | ToFloat

  /** The key of each table entry. */
  function Name(f: Filter): string {
    match f
    case Strip => "strip"
    case UcsdIDCheck => "ucsdIDCheck"
    case EightChar => "8char"
    case RemoveHash => "remove#"
    case ToUpper => "toUpper"
    case NVto0 => "NVto0"
    case NoneTo0 => "NoneTo0"
    case StripDenominator => "stripDenominator"
    case ToFloat => "toFloat"
  }

  /** `filtersAndChecks[name]`, or None where that lookup raises KeyError. */
  function FilterNamed(name: string): (r: Option<Filter>)
    ensures r.Some? ==> Name(r.value) == name
    ensures forall f :: Name(f) == name ==> r == Some(f)
  {
    if name == "strip" then Some(Strip)
    else if name == "ucsdIDCheck" then Some(UcsdIDCheck)
    else if name == "8char" then Some(EightChar)
    else if name == "remove#" then Some(RemoveHash)
    else if name == "toUpper" then Some(ToUpper)
    else if name == "NVto0" then Some(NVto0)
    else if name == "NoneTo0" then Some(NoneTo0)
    else if name == "stripDenominator" then Some(StripDenominator)
    else if name == "toFloat" then Some(ToFloat)
    else None
  }

  // ---------------------------------------------------------------------------
  // Whitespace stripping (`str.strip()` with no argument)

  /** `str.isspace()` for a single character. */
  predicate IsSpace(c: char) {
    c == ' ' || '\t' <= c <= '\r' || '\U{1c}' <= c <= '\U{1f}' || c == '\U{85}' || c == '\U{a0}'
    || c == '\U{1680}' || '\U{2000}' <= c <= '\U{200a}' || c == '\U{2028}' || c == '\U{2029}'
    || c == '\U{202f}' || c == '\U{205f}' || c == '\U{3000}'
  }

  predicate AllSpace(s: string) {
    forall i :: 0 <= i < |s| ==> IsSpace(s[i])
  }

  /** True when `s` neither begins nor ends with whitespace. */
  predicate Trimmed(s: string) {
    s == [] || (!IsSpace(s[0]) && !IsSpace(s[|s| - 1]))
  }

  /** The number of whitespace characters `s` begins with. */
  function LeadingSpaces(s: string): (n: nat)
    ensures n <= |s| && AllSpace(s[..n]) && (n == |s| || !IsSpace(s[n]))
    decreases |s|
  {
    if s != [] && IsSpace(s[0]) then
      var n := LeadingSpaces(s[1..]);
      assert forall k :: 1 <= k < n + 1 ==> s[k] == s[1..][k - 1];
      n + 1
    else 0
  }

  /** The number of whitespace characters `s` ends with. */
  function TrailingSpaces(s: string): (n: nat)
    ensures n <= |s| && AllSpace(s[|s| - n..]) && (n == |s| || !IsSpace(s[|s| - n - 1]))
    decreases |s|
  {
    if s != [] && IsSpace(s[|s| - 1]) then
      var n := TrailingSpaces(s[..|s| - 1]);
      assert forall k :: |s| - n - 1 <= k < |s| - 1 ==> s[k] == s[..|s| - 1][k];
      n + 1
    else 0
  }

  /** `s.strip()`: the longest infix of `s` that neither begins nor ends with
      whitespace, obtained by removing only whitespace at either end. */
  function StripText(s: string): (r: string)
    ensures Trimmed(r)
    ensures exists i, j :: 0 <= i <= j <= |s| && r == s[i..j] && AllSpace(s[..i]) && AllSpace(s[j..])
    ensures forall k :: 0 <= k < |r| ==> r[k] in s
  {
    var i := LeadingSpaces(s);
    var n := TrailingSpaces(s[i..]);
    var j := |s| - n;
    assert s[j..] == s[i..][|s[i..]| - n..];
    assert forall k :: 0 <= k < j - i ==> s[i..j][k] == s[i + k];
    s[i..j]
  }

  /** Stripping a string that is already trimmed changes nothing. */
  lemma StripTrimmed(s: string)
    requires Trimmed(s)
    ensures StripText(s) == s
  {
    assert LeadingSpaces(s) == 0;
    assert TrailingSpaces(s) == 0;
  }

  /** `strip` is idempotent. */
  lemma StripIdempotent(s: string)
    ensures StripText(StripText(s)) == StripText(s)
  {
    StripTrimmed(StripText(s));
  }

  // ---------------------------------------------------------------------------
  // Upper-casing (restricted to ASCII letters)

  function UpperChar(c: char): (u: char)
    ensures !('a' <= u <= 'z')
    ensures 'a' <= c <= 'z' || u == c
  {
    if 'a' <= c <= 'z' then (c as int - 32) as char else c
  }

  /** `s.upper()` for ASCII letters: same length, and no lower-case letter remains. */
  function UpperText(s: string): (r: string)
    ensures |r| == |s|
    ensures forall i :: 0 <= i < |s| ==> r[i] == UpperChar(s[i])
    ensures forall i :: 0 <= i < |r| ==> !('a' <= r[i] <= 'z')
  {
    seq(|s|, i requires 0 <= i < |s| => UpperChar(s[i]))
  }

  /** `toUpper` is idempotent. */
  lemma UpperIdempotent(s: string)
    ensures UpperText(UpperText(s)) == UpperText(s)
  {
  }

  // ---------------------------------------------------------------------------
  // The remaining string helpers

  /** The position of the first '/' in `s`, or `|s|` when there is none. */
  function SlashIndex(s: string): (n: nat)
    ensures n <= |s| && (forall k :: 0 <= k < n ==> s[k] != '/') && (n < |s| ==> s[n] == '/')
    decreases |s|
  {
    if s == [] || s[0] == '/' then 0
    else
      var n := SlashIndex(s[1..]);
      assert forall k :: 1 <= k < n + 1 ==> s[k] == s[1..][k - 1];
      n + 1
  }

  /** `s.split('/')[0]`: the text before the first '/'. */
  function BeforeSlash(s: string): (r: string)
    ensures '/' !in r
    ensures '/' !in s ==> r == s
  {
    var n := SlashIndex(s);
    assert '/' !in s ==> n == |s|;
    s[..n]
  }

  /** `split('/')[0]` is the prefix of `s` that ends at its first '/', or all of `s`. */
  lemma BeforeSlashPrefix(s: string)
    ensures var r := BeforeSlash(s);
      |r| <= |s| && r == s[..|r|] && (|r| == |s| || s[|r|] == '/')
  {
  }

  predicate IsDigit(c: char) {
    '0' <= c <= '9'
  }

  /** The pattern `\d*`, matched character by character. */
  predicate AllDigits(s: string)
    decreases |s|
  {
    s == [] || (IsDigit(s[0]) && AllDigits(s[1..]))
  }

  lemma {:induction false} AllDigitsMeaning(s: string)
    ensures AllDigits(s) <==> forall i :: 0 <= i < |s| ==> IsDigit(s[i])
    decreases |s|
  {
    if s != [] {
      AllDigitsMeaning(s[1..]);
      assert forall i :: 1 <= i < |s| ==> s[i] == s[1..][i - 1];
    }
  }

  /** The full match of `^[AU]\d{8}$`: an A or U followed by exactly eight digits. */
  predicate MatchesUcsdID(s: string) {
    |s| == 9 && (s[0] == 'A' || s[0] == 'U') && AllDigits(s[1..])
  }

  /** The ids `ucsdIDCheck` accepts, stated position by position. */
  lemma UcsdIDShape(s: string)
    ensures MatchesUcsdID(s) <==>
      |s| == 9 && (s[0] == 'A' || s[0] == 'U') && forall i :: 1 <= i < 9 ==> IsDigit(s[i])
  {
    if |s| == 9 {
      AllDigitsMeaning(s[1..]);
      assert forall i :: 1 <= i < 9 ==> s[i] == s[1..][i - 1];
    }
  }

  // ---------------------------------------------------------------------------
  // The filter table

  /** What the table entry `f` does with `x`. */
  function Apply(f: Filter, x: Val): (r: Result<Val, FilterError>)
    ensures f == ToFloat ==> r == Err(FloatNotModelled)
    ensures f in {NVto0, NoneTo0} ==> r.Ok?
    ensures x.Num? && f !in {NVto0, NoneTo0, ToFloat} ==> r == Err(WrongType(Name(f)))
    ensures f in {UcsdIDCheck, EightChar} && r.Ok? ==> r.value == x
  {
    match f
    case Strip => if x.Text? then Ok(Text(StripText(x.s))) else Err(WrongType(Name(f)))
    case UcsdIDCheck =>
      if x.Num? then Err(WrongType(Name(f)))
      else if MatchesUcsdID(x.s) then Ok(x) else Err(IncorrectFormat)
    case EightChar =>
      if x.Num? then Err(WrongType(Name(f)))
      else if |x.s| == 8 then Ok(x) else Err(IncorrectFormat)
    case RemoveHash =>
      if x.Num? then Err(WrongType(Name(f)))
      else if |x.s| > 0 && x.s[0] == '#' then Ok(Text(x.s[1..])) else Ok(x)
    case ToUpper => if x.Text? then Ok(Text(UpperText(x.s))) else Err(WrongType(Name(f)))
    case NVto0 => if x == Text("NV") then Ok(Num(0)) else Ok(x)
    case NoneTo0 => if x == Text("") || x == Text("None") then Ok(Num(0)) else Ok(x)
    case StripDenominator =>
      if x.Text? then Ok(Text(StripText(BeforeSlash(x.s)))) else Err(WrongType(Name(f)))
    case ToFloat => Err(FloatNotModelled)
  }

  /** `remove#` undoes prefixing one '#', so exactly one leading '#' goes. */
  lemma RemoveHashDropsOne(t: string)
    ensures Apply(RemoveHash, Text("#" + t)) == Ok(Text(t))
    ensures Apply(RemoveHash, Text("##" + t)) == Ok(Text("#" + t))
  {
    assert ("#" + t)[1..] == t;
    assert ("##" + t)[1..] == "#" + t;
  }

  /** `remove#` leaves every string without a leading '#' alone, the empty one included. */
  lemma RemoveHashKeeps(s: string)
    requires s == [] || s[0] != '#'
    ensures Apply(RemoveHash, Text(s)) == Ok(Text(s))
  {
  }

  /** `8char` returns its input exactly when it has eight characters. */
  lemma EightCharExact(s: string)
    ensures Apply(EightChar, Text(s)) == Ok(Text(s)) <==> |s| == 8
    ensures |s| != 8 ==> Apply(EightChar, Text(s)) == Err(IncorrectFormat)
  {
  }

  /** `ucsdIDCheck` returns its input for A/U followed by eight digits and raises otherwise. */
  lemma UcsdIDCheckExact(s: string)
    ensures Apply(UcsdIDCheck, Text(s)) == Ok(Text(s)) <==>
      |s| == 9 && (s[0] == 'A' || s[0] == 'U') && forall i :: 1 <= i < 9 ==> IsDigit(s[i])
    ensures Apply(UcsdIDCheck, Text(s)).Err? ==> Apply(UcsdIDCheck, Text(s)) == Err(IncorrectFormat)
  {
    UcsdIDShape(s);
  }

  /** `toUpper` and `strip` are idempotent as filters. */
  lemma FiltersIdempotent(x: Val, f: Filter)
    requires f in {Strip, ToUpper}
    requires Apply(f, x).Ok?
    ensures Apply(f, Apply(f, x).value) == Apply(f, x)
  {
    if f == Strip { StripIdempotent(x.s); } else { UpperIdempotent(x.s); }
  }

  /** `stripDenominator` keeps the text before the first '/', trimmed; without a
      '/' it is `strip`. */
  lemma StripDenominatorMeaning(s: string)
    ensures Apply(StripDenominator, Text(s)).Ok?
    ensures var b := BeforeSlash(s);
      && |b| <= |s| && b == s[..|b|] && (|b| == |s| || s[|b|] == '/')
      && Apply(StripDenominator, Text(s)) == Ok(Text(StripText(b)))
    ensures '/' !in Apply(StripDenominator, Text(s)).value.s
    ensures '/' !in s ==> Apply(StripDenominator, Text(s)) == Apply(Strip, Text(s))
  {
    var b := BeforeSlash(s);
    BeforeSlashPrefix(s);
    var r := StripText(b);
    assert Apply(StripDenominator, Text(s)) == Ok(Text(r));
    NoSlashInStripped(b);
    if '/' !in s {
      assert |b| == |s|;
      assert b == s;
      assert Apply(Strip, Text(s)) == Ok(Text(r));
    }
  }

  lemma NoSlashInStripped(b: string)
    requires '/' !in b
    ensures '/' !in StripText(b)
  {
  }

  /** `NVto0` changes exactly the string "NV", and `NoneTo0` exactly "" and "None",
      both into 0. */
  lemma ZeroingFilters(x: Val)
    ensures Apply(NVto0, x).value != x <==> x == Text("NV")
    ensures Apply(NoneTo0, x).value != x <==> x in {Text(""), Text("None")}
    ensures Apply(NVto0, x).value != x ==> Apply(NVto0, x).value == Num(0)
    ensures Apply(NoneTo0, x).value != x ==> Apply(NoneTo0, x).value == Num(0)
  {
  }

  // ---------------------------------------------------------------------------
  // checkAndClean

  /** `checkAndClean(s, filters)`: the named filters applied left to right, stopping
      at the first that raises. */
  function CheckAndClean(s: Val, filters: seq<string>): (r: Result<Val, FilterError>)
    ensures filters == [] ==> r == Ok(s)
    ensures r.Err? && r.error.UnknownFilter? ==> r.error.name in filters
    decreases |filters|
  {
    if filters == [] then Ok(s)
    else
      match FilterNamed(filters[0])
      case None => Err(UnknownFilter(filters[0]))
      case Some(f) =>
        match Apply(f, s)
        case Err(e) => Err(e)
        case Ok(t) =>
          var r := CheckAndClean(t, filters[1..]);
          assert r.Err? && r.error.UnknownFilter? ==> r.error.name in filters by {
            if r.Err? && r.error.UnknownFilter? {
              var k :| 0 <= k < |filters[1..]| && filters[1..][k] == r.error.name;
              assert filters[k + 1] == r.error.name;
            }
          }
          r
  }

  /** Running a concatenated filter list is running the first list, then the second. */
  lemma {:induction false} CheckAndCleanConcat(s: Val, a: seq<string>, b: seq<string>)
    ensures CheckAndClean(s, a + b) ==
      match CheckAndClean(s, a)
      case Ok(t) => CheckAndClean(t, b)
      case Err(e) => Err(e)
    decreases |a|
  {
    if a == [] {
      assert a + b == b;
    } else {
      assert (a + b)[0] == a[0] && (a + b)[1..] == a[1..] + b;
      match FilterNamed(a[0])
      case None =>
      case Some(f) =>
        match Apply(f, s)
        case Err(_) =>
        case Ok(t) => CheckAndCleanConcat(t, a[1..], b);
    }
  }

  /** A name missing from the table stops the chain with that name, once the filters
      before it have succeeded. */
  lemma UnknownFilterFails(s: Val, before: seq<string>, name: string, after: seq<string>)
    requires FilterNamed(name).None?
    requires CheckAndClean(s, before).Ok?
    ensures CheckAndClean(s, before + [name] + after) == Err(UnknownFilter(name))
  {
    CheckAndCleanConcat(s, before, [name] + after);
    assert before + [name] + after == before + ([name] + after);
  }

  /** The filter list that the configuration guesser writes for student ids names
      '9char', which the table lacks: every string id fails to clean. */
  lemma NineCharUndefined(id: string)
    ensures CheckAndClean(Text(id), ["strip", "9char", "toUpper"]) == Err(UnknownFilter("9char"))
  {
    UnknownFilterFails(Text(id), ["strip"], "9char", ["toUpper"]);
    assert ["strip"] + ["9char"] + ["toUpper"] == ["strip", "9char", "toUpper"];
  }
}
