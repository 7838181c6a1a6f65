/**
 * The date-string helpers of the CSV utilities: picking the separator of a
 * date string and rewriting its parts in year-first order joined by '-'.
 */
module CsvTools {
  import opened Wrappers
  import opened PyStr

  /** The two ways the rewrite can raise. */
  datatype DateError =
    | EmptySeparator     // Python's ValueError from `split('')`
    | NoSecondPart       // Python's IndexError from `parts[1]`

  /** `get_date_seperator`: '-' when the string has a dash, '/' for everything else. */
  function GetDateSeparator(dateStr: string): (sep: string)
    ensures sep == "-" <==> '-' in dateStr
    ensures sep == "-" || sep == "/"
  {
    if '-' in dateStr then "-" else "/"
  }

  /**
   * `fix_date_str`: split on the separator; keep the order when the first
   * part is four characters long (a year), otherwise move the last part to
   * the front as `last-first-second`; join with '-'.
   */
  function FixDateStr(dateStr: string, separator: string): (r: Result<string, DateError>)
    ensures r.Failure? <==>
      |separator| == 0 ||
      (|Split(dateStr, separator)[0]| != 4 && |Split(dateStr, separator)| < 2)
  {
    if |separator| == 0 then Failure(EmptySeparator)
    else
      var parts := Split(dateStr, separator);
      if |parts[0]| == 4 then Success(Join(parts, "-"))
      else if |parts| < 2 then Failure(NoSecondPart)
      else Success(Join([parts[|parts| - 1], parts[0], parts[1]], "-"))
  }

  /**
   * The docstrings call both functions helpers of `correct_date_format`,
   * which the file does not define; this is the plain composition of the two.
   */
  function NormalizeDate(dateStr: string): Result<string, DateError>
  {
    FixDateStr(dateStr, GetDateSeparator(dateStr))
  }

  /** A year-first string already separated by '-' comes back unchanged. */
  lemma DashYearFirstUnchanged(s: string)
    requires |Split(s, "-")[0]| == 4
    ensures FixDateStr(s, "-") == Success(s)
  {
    JoinSplit(s, "-");
  }

  /**
   * Year-first with a one-character separator: the parts keep their order and
   * count (splitting the result on '-' gives them back) and the length is kept.
   */
  lemma YearFirstKeepsParts(s: string, sep: string)
    requires |sep| == 1 && '-' !in s
    requires |Split(s, sep)[0]| == 4
    ensures FixDateStr(s, sep).Success?
    ensures Split(FixDateStr(s, sep).value, "-") == Split(s, sep)
    ensures |FixDateStr(s, sep).value| == |s|
  {
    var parts := Split(s, sep);
    PiecesAvoid(s, sep, '-');
    SplitJoin(parts, '-');
    JoinSplit(s, sep);
  }

  /** Not year-first: the result is `last-first-second`; parts between the second and the last are dropped. */
  lemma ReorderShape(s: string, sep: string)
    requires |sep| > 0
    requires |Split(s, sep)[0]| != 4 && |Split(s, sep)| >= 2
    ensures var parts := Split(s, sep);
      FixDateStr(s, sep) == Success(parts[|parts| - 1] + "-" + parts[0] + "-" + parts[1])
  {
    var parts := Split(s, sep);
    var reordered := [parts[|parts| - 1], parts[0], parts[1]];
    assert reordered[1..] == [parts[0], parts[1]] && reordered[1..][1..] == [parts[1]];
    assert Join(reordered[1..], "-") == parts[0] + "-" + parts[1];
    assert Join(reordered, "-") == parts[|parts| - 1] + "-" + (parts[0] + "-" + parts[1]);
    assert parts[|parts| - 1] + "-" + (parts[0] + "-" + parts[1])
        == parts[|parts| - 1] + "-" + parts[0] + "-" + parts[1];
  }

  /**
   * With a one-character separator the rewrite fails exactly when the string
   * has no separator and is not four characters long.
   */
  lemma FixDateFailsExactly(s: string, sep: string)
    requires |sep| == 1
    ensures FixDateStr(s, sep).Failure? <==> sep[0] !in s && |s| != 4
  {
    SplitSinglePiece(s, sep);
    if sep[0] !in s {
      assert sep == [sep[0]];
      SplitNoSeparator(s, sep[0]);
    }
  }

  /** Characters of `x + [c] + y + [c] + z`, counted with the two copies of `c` apart. */
  lemma ThreeWithSeparators(x: string, y: string, z: string, c: char)
    ensures multiset(x + [c] + y + [c] + z) == multiset(z) + multiset(x) + multiset(y) + multiset{c, c}
  {
  }

  /** The three-part rewrite keeps the characters of its parts, whatever they hold. */
  lemma RotateThreeChars(p0: string, p1: string, p2: string, c: char)
    requires c !in p0 && c !in p1 && c !in p2
    ensures var s, r := p0 + [c] + p1 + [c] + p2, p2 + "-" + p0 + "-" + p1;
      && |r| == |s|
      && multiset(r) + multiset{c, c} == multiset(s) + multiset{'-', '-'}
      && (c != '-' ==> c !in r)
  {
    ThreeWithSeparators(p0, p1, p2, c);
    ThreeWithSeparators(p2, p0, p1, '-');
  }

  /** Dash-free parts rotated and joined by '-' read back on '-' as the rotation. */
  lemma RotateThree(p0: string, p1: string, p2: string)
    requires '-' !in p0 && '-' !in p1 && '-' !in p2
    ensures Split(p2 + "-" + p0 + "-" + p1, "-") == [p2, p0, p1]
  {
    JoinThree(p2, p0, p1, "-");
    SplitJoin([p2, p0, p1], '-');
  }

  /**
   * Exactly three parts, not year-first, one-character separator: the result
   * is as long as the input, has the same characters with the two separators
   * replaced by two dashes, and holds no separator other than '-'. This holds
   * whatever else the parts contain, dashes included.
   */
  lemma ReorderThreeKeepsChars(s: string, sep: string)
    requires |sep| == 1
    requires |Split(s, sep)| == 3 && |Split(s, sep)[0]| != 4
    ensures FixDateStr(s, sep).Success?
    ensures var r := FixDateStr(s, sep).value;
      && |r| == |s|
      && multiset(r) + multiset{sep[0], sep[0]} == multiset(s) + multiset{'-', '-'}
      && (sep != "-" ==> sep[0] !in r)
  {
    var parts := Split(s, sep);
    var p0, p1, p2 := parts[0], parts[1], parts[2];
    var c := sep[0];
    assert s == p0 + [c] + p1 + [c] + p2 by {
      assert sep == [c];
      assert parts == [p0, p1, p2];
      JoinSplit(s, sep);
      JoinThree(p0, p1, p2, sep);
    }
    assert c !in p0 && c !in p1 && c !in p2 by {
      SplitPiecesFree(s, sep);
    }
    ReorderShape(s, sep);
    RotateThreeChars(p0, p1, p2, c);
  }

  /**
   * As `ReorderThreeKeepsChars`, and when the input has no dash other than the
   * separators, the result splits on '-' into `last, first, second`.
   */
  lemma ReorderThreeParts(s: string, sep: string)
    requires |sep| == 1
    requires |Split(s, sep)| == 3 && |Split(s, sep)[0]| != 4
    requires '-' !in s || sep == "-"
    ensures FixDateStr(s, sep).Success?
    ensures var r := FixDateStr(s, sep).value;
      && |r| == |s|
      && multiset(r) + multiset{sep[0], sep[0]} == multiset(s) + multiset{'-', '-'}
      && (sep != "-" ==> sep[0] !in r)
      && Split(r, "-") == [Split(s, sep)[2], Split(s, sep)[0], Split(s, sep)[1]]
  {
    var parts := Split(s, sep);
    var p0, p1, p2 := parts[0], parts[1], parts[2];
    ReorderThreeKeepsChars(s, sep);
    assert '-' !in p0 && '-' !in p1 && '-' !in p2 by {
      if sep == "-" {
        SplitPiecesFree(s, sep);
      } else {
        PiecesAvoid(s, sep, '-');
      }
    }
    ReorderShape(s, sep);
    RotateThree(p0, p1, p2);
  }

  /** Dash-free parts led by a year, joined by '-', are already normal. */
  lemma DashJoinedIsNormal(parts: seq<string>)
    requires |parts| >= 2 && |parts[0]| == 4
    requires forall i :: 0 <= i < |parts| ==> '-' !in parts[i]
    ensures NormalizeDate(Join(parts, "-")) == Success(Join(parts, "-"))
  {
    var v := Join(parts, "-");
    assert v == parts[0] + "-" + Join(parts[1..], "-");
    assert v[|parts[0]|] == '-';
    assert GetDateSeparator(v) == "-";
    SplitJoin(parts, '-');
  }

  /** A four-character string with neither separator is already normal. */
  lemma BareYearIsNormal(v: string)
    requires |v| == 4 && '-' !in v && '/' !in v
    ensures NormalizeDate(v) == Success(v)
  {
    SplitNoSeparator(v, '/');
  }

  /** Whichever separator the normaliser picks, no part of the split holds a dash. */
  lemma NormalPartsDashFree(s: string)
    ensures var parts := Split(s, GetDateSeparator(s));
      forall i :: 0 <= i < |parts| ==> '-' !in parts[i]
  {
    var sep := GetDateSeparator(s);
    if sep == "-" {
      SplitPiecesFree(s, sep);
    } else {
      PiecesAvoid(s, sep, '-');
    }
  }

  /**
   * Normalising twice equals normalising once, for every input that normalises
   * and whose first or last part is four characters long (the year).
   */
  lemma NormalizeIdempotent(s: string)
    requires NormalizeDate(s).Success?
    requires var parts := Split(s, GetDateSeparator(s));
      |parts[0]| == 4 || |parts[|parts| - 1]| == 4
    ensures NormalizeDate(NormalizeDate(s).value) == NormalizeDate(s)
  {
    var sep := GetDateSeparator(s);
    var parts := Split(s, sep);
    NormalPartsDashFree(s);
    if |parts[0]| == 4 && |parts| >= 2 {
      DashJoinedIsNormal(parts);
    } else if |parts[0]| == 4 {
      SplitSinglePiece(s, sep);
      SplitPiecesFree(s, sep);
      JoinSplit(s, sep);
      assert sep == "/" && parts == [s];
      BareYearIsNormal(s);
    } else {
      var reordered := [parts[|parts| - 1], parts[0], parts[1]];
      DashJoinedIsNormal(reordered);
    }
  }

  /** Without a four-character year the rewrite keeps rotating the parts. */
  lemma NoYearRotates()
    ensures NormalizeDate("1/2/3") == Success("3-1-2")
  {
    var s := "1/2/3";
    assert '-' !in s;
    assert Split(s, "/") == ["1", "2", "3"] by {
      assert s == "1" + ['/'] + "2/3";
      SplitCons("1", '/', "2/3");
      assert "2/3" == "2" + ['/'] + "3";
      SplitCons("2", '/', "3");
      SplitNoSeparator("3", '/');
    }
    assert GetDateSeparator(s) == "/";
    JoinThree("3", "1", "2", "-");
    assert "3" + "-" + "1" + "-" + "2" == "3-1-2";
    ReorderShape(s, "/");
  }

  /** ... so a second normalisation changes the result again: not idempotent. */
  lemma NoYearNotIdempotent()
    ensures NormalizeDate("3-1-2") == Success("2-3-1")
  {
    var s := "3-1-2";
    assert '-' in s by { assert s[1] == '-'; }
    assert Split(s, "-") == ["3", "1", "2"] by {
      assert s == "3" + ['-'] + "1-2";
      SplitCons("3", '-', "1-2");
      assert "1-2" == "1" + ['-'] + "2";
      SplitCons("1", '-', "2");
      SplitNoSeparator("2", '-');
    }
    assert GetDateSeparator(s) == "-";
    JoinThree("2", "3", "1", "-");
    assert "2" + "-" + "3" + "-" + "1" == "2-3-1";
    ReorderShape(s, "-");
  }

  /** Month and day are not zero-padded: `M/D/YYYY` gives `YYYY-M-D`, not `YYYY-MM-DD`. */
  lemma UnpaddedStaysUnpadded()
    ensures NormalizeDate("1/2/2020") == Success("2020-1-2")
  {
    var s := "1/2/2020";
    assert '-' !in s;
    assert s == "1" + ['/'] + "2" + ['/'] + "2020";
    SplitThree("1", "2", "2020", '/');
    assert GetDateSeparator(s) == "/";
    assert "2020" + "-" + "1" + "-" + "2" == "2020-1-2";
    ReorderShape(s, "/");
  }
}
