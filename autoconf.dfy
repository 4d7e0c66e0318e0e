/** The file-type classifier `inferType` of autoconf.py, over the file's extension and
    the header row that `csv.DictReader` reads (None for an empty file). Opening and
    reading the file are not part of this model. */
module AutoConf {
  import opened Wrappers

  /** The six labels `inferType` returns. */
  datatype FileType = Unknown | Roster | Gradescope | ScoredGoogleForm | UnscoredGoogleForm | Other {
    function Label(): string {
      match this
      case Unknown => "unknown"
      case Roster => "roster"
      case Gradescope => "gradescope"
      case ScoredGoogleForm => "scoredGoogleForm"
      case UnscoredGoogleForm => "unscoredGoogleForm"
      case Other => "other"
    }
  }

  /** How the classifier raises on a `.csv` file: an empty file has no header at all
      (`None[:4]`, TypeError); an empty header row fails at `fields[0]` (IndexError). */
  datatype InferError = NoHeader | EmptyHeader

  const RosterHeader: seq<string> := ["Sect ID", "Course", "Title", "SecCode"]
  const MaxPointsSuffix := " - Max Points"

  /** Python's `s[:n]`. */
  function Take<T>(s: seq<T>, n: nat): (r: seq<T>)
    ensures |r| == if |s| <= n then |s| else n
    ensures r == s[..|r|]
  {
    if |s| <= n then s else s[..n]
  }

  /** The column before column `i`, where the loop starts from `first`. */
  function Previous(fields: seq<string>, first: string, i: nat): string
    requires i < |fields|
  {
    if i == 0 then first else fields[i - 1]
  }

  /** Some column is its predecessor's name followed by " - Max Points". */
  predicate HasMaxPointsColumn(fields: seq<string>, first: string) {
    exists i :: 0 <= i < |fields| && fields[i] == Previous(fields, first, i) + MaxPointsSuffix
  }

  /** The `for col in fields` loop that remembers `lastCol`. */
  function ScanMaxPoints(fields: seq<string>, lastCol: string): (found: bool)
    ensures found ==> HasMaxPointsColumn(fields, lastCol)
    decreases |fields|
  {
    if fields == [] then false
    else if fields[0] == lastCol + MaxPointsSuffix then
      assert fields[0] == Previous(fields, lastCol, 0) + MaxPointsSuffix;
      true
    else
      var found := ScanMaxPoints(fields[1..], fields[0]);
      assert found ==> HasMaxPointsColumn(fields, lastCol) by {
        if found {
          var rest := fields[1..];
          var i :| 0 <= i < |rest| && rest[i] == Previous(rest, fields[0], i) + MaxPointsSuffix;
          assert fields[i + 1] == Previous(fields, lastCol, i + 1) + MaxPointsSuffix;
        }
      }
      found
  }

  /** The loop finds exactly the columns that follow their predecessor's "Max Points"
      pattern, the first column's predecessor being the loop's starting value. */
  lemma {:induction false} ScanMaxPointsMeaning(fields: seq<string>, lastCol: string)
    ensures ScanMaxPoints(fields, lastCol) <==> HasMaxPointsColumn(fields, lastCol)
    decreases |fields|
  {
    if fields != [] && fields[0] != lastCol + MaxPointsSuffix {
      var rest := fields[1..];
      ScanMaxPointsMeaning(rest, fields[0]);
      if HasMaxPointsColumn(fields, lastCol) {
        var i :| 0 <= i < |fields| && fields[i] == Previous(fields, lastCol, i) + MaxPointsSuffix;
        assert i > 0;
        assert rest[i - 1] == Previous(rest, fields[0], i - 1) + MaxPointsSuffix;
      }
    }
  }

  /** `inferType`, with the file's header row given. */
  function InferType(ext: string, header: Option<seq<string>>): (r: Result<FileType, InferError>)
    ensures ext != ".csv" ==> r == Ok(Unknown)
    ensures ext == ".csv" && header.None? ==> r == Err(NoHeader)
  {
    if ext != ".csv" then Ok(Unknown)
    else if header.None? then Err(NoHeader)
    else
      var fields := header.value;
      if Take(fields, 4) == RosterHeader then Ok(Roster)
      else if ScanMaxPoints(fields, "") then Ok(Gradescope)
      else if fields == [] then Err(EmptyHeader)
      else if fields[0] == "Timestamp" then
        if "Score" in fields then Ok(ScoredGoogleForm) else Ok(UnscoredGoogleForm)
      else Ok(Other)
  }

  predicate StartsWithRosterHeader(fields: seq<string>) {
    |fields| >= 4 && fields[..4] == RosterHeader
  }

  /** The classification of a `.csv` header, rule by rule in order of precedence. */
  lemma InferTypeRules(fields: seq<string>)
    ensures var r := InferType(".csv", Some(fields));
      && (StartsWithRosterHeader(fields) ==> r == Ok(Roster))
      && (!StartsWithRosterHeader(fields) && HasMaxPointsColumn(fields, "") ==> r == Ok(Gradescope))
      && (!StartsWithRosterHeader(fields) && !HasMaxPointsColumn(fields, "") ==>
            if fields == [] then r == Err(EmptyHeader)
            else if fields[0] == "Timestamp" then
              r == Ok(if "Score" in fields then ScoredGoogleForm else UnscoredGoogleForm)
            else r == Ok(Other))
  {
    ScanMaxPointsMeaning(fields, "");
    assert Take(fields, 4) == RosterHeader <==> |fields| >= 4 && fields[..4] == RosterHeader;
  }

  /** The roster rule wins over every other: whatever follows the four roster columns,
      even a "Max Points" pair or a Timestamp layout, the file is a roster. */
  lemma RosterTakesPrecedence(rest: seq<string>)
    ensures InferType(".csv", Some(RosterHeader + rest)) == Ok(Roster)
  {
    assert (RosterHeader + rest)[..4] == RosterHeader;
  }

  /** A Google form export is told from a Gradescope one only when no column pairs
      with a "Max Points" column. */
  lemma GradescopeBeforeForms(fields: seq<string>)
    requires |fields| >= 2 && fields[0] == "Timestamp" && fields[1] == "Timestamp - Max Points"
    ensures InferType(".csv", Some(fields)) == Ok(Gradescope)
  {
    assert fields[1] == Previous(fields, "", 1) + MaxPointsSuffix;
    ScanMaxPointsMeaning(fields, "");
    assert Take(fields, 4) != RosterHeader by {
      if |Take(fields, 4)| == 4 { assert Take(fields, 4)[0] == "Timestamp"; }
    }
  }
}
