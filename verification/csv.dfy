/** read_csv (FPEngine.cpp): the world file as rows of comma-separated
    integers.  The two library routines it leans on are modelled as
    functions: std::getline as Split, std::stoi as Stoi. */
module Csv {
  import opened Wrappers

  /** The two exceptions std::stoi throws. */
  datatype StoiError = InvalidArgument | OutOfRange

  const INT_MIN: int := -2147483648
  const INT_MAX: int := 2147483647

  predicate IsDigit(c: char) { '0' <= c <= '9' }

  /** The characters isspace accepts in the C locale. */
  predicate IsSpace(c: char) { c == ' ' || 9 <= c as int <= 13 }

  /** Number of white-space characters s starts with. */
  function LeadingSpaces(s: string): (k: nat)
    ensures k <= |s|
  {
    if |s| == 0 || !IsSpace(s[0]) then 0 else 1 + LeadingSpaces(s[1..])
  }

  /** LeadingSpaces stops exactly at the first character that is not white space. */
  lemma {:induction false} LeadingSpacesSpan(s: string)
    ensures forall i :: 0 <= i < LeadingSpaces(s) ==> IsSpace(s[i])
    ensures LeadingSpaces(s) < |s| ==> !IsSpace(s[LeadingSpaces(s)])
  {
    if |s| > 0 && IsSpace(s[0]) {
      LeadingSpacesSpan(s[1..]);
    }
  }

  /** Number of digits s starts with. */
  function LeadingDigits(s: string): (k: nat)
    ensures k <= |s|
  {
    if |s| == 0 || !IsDigit(s[0]) then 0 else 1 + LeadingDigits(s[1..])
  }

  /** LeadingDigits stops exactly at the first character that is not a digit. */
  lemma {:induction false} LeadingDigitsSpan(s: string)
    ensures forall i :: 0 <= i < LeadingDigits(s) ==> IsDigit(s[i])
    ensures LeadingDigits(s) < |s| ==> !IsDigit(s[LeadingDigits(s)])
  {
    if |s| > 0 && IsDigit(s[0]) {
      LeadingDigitsSpan(s[1..]);
    }
  }

  // ---------------------------------------------------------------------
  // std::getline

  /** Position of the first sep in s, or |s| when there is none. */
  function Find(s: string, sep: char): (k: nat)
    ensures k <= |s|
    ensures forall i :: 0 <= i < k ==> s[i] != sep
    ensures k < |s| ==> s[k] == sep
  {
    if |s| == 0 || s[0] == sep then 0 else 1 + Find(s[1..], sep)
  }

  /** What repeated std::getline(in, piece, sep) extracts from s: the
      pieces between separators, where a trailing separator does not start
      another piece and an empty input gives none. */
  function Split(s: string, sep: char): (parts: seq<string>)
    decreases |s|
    ensures forall k :: 0 <= k < |parts| ==> sep !in parts[k]
    ensures |s| == 0 <==> |parts| == 0
  {
    if |s| == 0 then []
    else
      var k := Find(s, sep);
      if k == |s| then [s] else [s[..k]] + Split(s[k + 1..], sep)
  }

  /** The parts joined with sep between them. */
  function Join(parts: seq<string>, sep: char): string
  {
    if |parts| == 0 then []
    else if |parts| == 1 then parts[0]
    else parts[0] + [sep] + Join(parts[1..], sep)
  }

  /** Every part followed by sep: how a text file of lines is laid out. */
  function Terminated(parts: seq<string>, sep: char): string
  {
    if |parts| == 0 then [] else parts[0] + [sep] + Terminated(parts[1..], sep)
  }

  /** Split finds the first piece when the input starts with a piece and a separator. */
  lemma SplitFirst(p: string, sep: char, rest: string)
    requires sep !in p
    ensures Split(p + [sep] + rest, sep) == [p] + Split(rest, sep)
  {
    var s := p + [sep] + rest;
    var k := Find(s, sep);
    assert s[|p|] == sep;
    assert forall i :: 0 <= i < |p| ==> s[i] == p[i];
    assert k == |p|;
    assert s[..k] == p;
    assert s[k + 1..] == rest;
  }

  /** Lines written one per terminated line are read back as they were. */
  lemma {:induction false} SplitTerminated(parts: seq<string>, sep: char)
    requires forall k :: 0 <= k < |parts| ==> sep !in parts[k]
    ensures Split(Terminated(parts, sep), sep) == parts
  {
    if |parts| > 0 {
      SplitFirst(parts[0], sep, Terminated(parts[1..], sep));
      SplitTerminated(parts[1..], sep);
    }
  }

  /** Cells joined by separators are read back as they were, provided the
      last one is not empty (an empty last cell leaves no trace). */
  lemma {:induction false} SplitJoin(parts: seq<string>, sep: char)
    requires forall k :: 0 <= k < |parts| ==> sep !in parts[k]
    requires |parts| > 0 ==> |parts[|parts| - 1]| > 0
    ensures Split(Join(parts, sep), sep) == parts
  {
    if |parts| == 1 {
      var s := parts[0];
      assert forall i :: 0 <= i < |s| ==> s[i] != sep;
      assert Find(s, sep) == |s|;
    } else if |parts| > 1 {
      SplitFirst(parts[0], sep, Join(parts[1..], sep));
      SplitJoin(parts[1..], sep);
    }
  }

  /** Joining a part in front of a nonempty list puts one separator between. */
  lemma JoinCons(p: string, parts: seq<string>, sep: char)
    requires |parts| > 0
    ensures Join([p] + parts, sep) == p + [sep] + Join(parts, sep)
  {
    assert ([p] + parts)[1..] == parts;
  }

  /** The inductive step of JoinSplit: one piece and its separator in front. */
  lemma JoinSplitStep(p: string, rest: string, sep: char)
    requires sep !in p
    requires |rest| > 0 && rest[|rest| - 1] == sep ==> Join(Split(rest, sep), sep) + [sep] == rest
    requires !(|rest| > 0 && rest[|rest| - 1] == sep) ==> Join(Split(rest, sep), sep) == rest
    ensures var s := p + [sep] + rest;
      if s[|s| - 1] == sep then Join(Split(s, sep), sep) + [sep] == s else Join(Split(s, sep), sep) == s
  {
    SplitFirst(p, sep, rest);
    if |rest| > 0 {
      var tail := Join(Split(rest, sep), sep);
      JoinCons(p, Split(rest, sep), sep);
      if rest[|rest| - 1] == sep {
        assert p + [sep] + tail + [sep] == p + [sep] + (tail + [sep]);
      }
    }
  }

  /** Splitting loses nothing but the separators and at most one trailing separator. */
  lemma {:induction false} JoinSplit(s: string, sep: char)
    decreases |s|
    ensures |s| > 0 && s[|s| - 1] == sep ==> Join(Split(s, sep), sep) + [sep] == s
    ensures !(|s| > 0 && s[|s| - 1] == sep) ==> Join(Split(s, sep), sep) == s
  {
    if |s| > 0 {
      var k := Find(s, sep);
      if k < |s| {
        var p, rest := s[..k], s[k + 1..];
        assert s == p + [sep] + rest;
        assert sep !in p;
        JoinSplit(rest, sep);
        JoinSplitStep(p, rest, sep);
      }
    }
  }

  // ---------------------------------------------------------------------
  // std::stoi

  function DigitValue(c: char): nat
    requires IsDigit(c)
  {
    (c as int) - ('0' as int)
  }

  /** The number a string of decimal digits denotes. */
  function DigitsValue(s: string): nat
    requires forall i :: 0 <= i < |s| ==> IsDigit(s[i])
  {
    if |s| == 0 then 0 else DigitsValue(s[..|s| - 1]) * 10 + DigitValue(s[|s| - 1])
  }

  /** std::stoi with base 10: leading white space is skipped, one sign is
      allowed, then at least one digit must follow; whatever comes after the
      digits is ignored.  No digits: invalid_argument; a value outside int:
      out_of_range. */
  function Stoi(cell: string): (r: Result<int, StoiError>)
    ensures r.Ok? ==> INT_MIN <= r.value <= INT_MAX
  {
    var rest := cell[LeadingSpaces(cell)..];
    var negative := |rest| > 0 && rest[0] == '-';
    var unsigned := if |rest| > 0 && (rest[0] == '-' || rest[0] == '+') then rest[1..] else rest;
    var n := LeadingDigits(unsigned);
    if n == 0 then Err(InvalidArgument)
    else
      LeadingDigitsSpan(unsigned);
      var magnitude: int := DigitsValue(unsigned[..n]);
      var v: int := if negative then -magnitude else magnitude;
      if v < INT_MIN || v > INT_MAX then Err(OutOfRange) else Ok(v)
  }

  /** A cell with nothing but white space in it is an invalid argument. */
  lemma BlankCellIsInvalid(cell: string)
    requires forall i :: 0 <= i < |cell| ==> IsSpace(cell[i])
    ensures Stoi(cell) == Err(InvalidArgument)
  {
    LeadingSpacesSpan(cell);
    assert LeadingSpaces(cell) == |cell|;
  }

  function DigitChar(d: nat): (c: char)
    requires d < 10
    ensures IsDigit(c) && DigitValue(c) == d
  {
    ('0' as int + d) as char
  }

  /** The decimal numeral of n, as std::to_string writes it. */
  function Decimal(n: nat): (s: string)
    ensures |s| > 0
    ensures forall i :: 0 <= i < |s| ==> IsDigit(s[i])
  {
    if n < 10 then [DigitChar(n)] else Decimal(n / 10) + [DigitChar(n % 10)]
  }

  lemma {:induction false} DecimalValue(n: nat)
    ensures DigitsValue(Decimal(n)) == n
  {
    if n >= 10 {
      var s := Decimal(n);
      assert s[..|s| - 1] == Decimal(n / 10);
      DecimalValue(n / 10);
    }
  }

  /** An int written in decimal, with a '-' when negative. */
  function FormatInt(v: int): string
  {
    if v >= 0 then Decimal(v) else ['-'] + Decimal(-v)
  }

  /** Every int survives being written and read back. */
  lemma StoiFormatInt(v: int)
    requires INT_MIN <= v <= INT_MAX
    ensures Stoi(FormatInt(v)) == Ok(v)
    ensures ',' !in FormatInt(v) && '\n' !in FormatInt(v) && |FormatInt(v)| > 0
  {
    var s := FormatInt(v);
    var m: nat := if v >= 0 then v else -v;
    var digits := Decimal(m);
    DecimalValue(m);
    assert !IsSpace(s[0]);
    assert LeadingSpaces(s) == 0;
    assert s[0..] == s;
    LeadingDigitsSpan(digits);
    assert LeadingDigits(digits) == |digits|;
    assert digits[..|digits|] == digits;
    if v < 0 {
      assert s[1..] == digits;
    }
    assert forall i :: 0 <= i < |s| ==> s[i] == '-' || IsDigit(s[i]);
  }

  // ---------------------------------------------------------------------
  // read_csv

  /** The results of a sequence of conversions done in order, where the
      first failure is the exception that escapes. */
  function Collect<T>(rs: seq<Result<T, StoiError>>): (r: Result<seq<T>, StoiError>)
    ensures r.Ok? <==> forall k :: 0 <= k < |rs| ==> rs[k].Ok?
    ensures r.Ok? ==> |r.value| == |rs| && forall k :: 0 <= k < |rs| ==> rs[k] == Ok(r.value[k])
  {
    if |rs| == 0 then Ok([])
    else
      match Collect(rs[..|rs| - 1])
      case Err(e) => Err(e)
      case Ok(vs) =>
        match rs[|rs| - 1]
        case Err(e) => Err(e)
        case Ok(v) => Ok(vs + [v])
  }

  /** The error Collect reports is the one of the first failing conversion. */
  lemma {:induction false} CollectFirstError<T>(rs: seq<Result<T, StoiError>>, k: nat)
    requires k < |rs| && rs[k].Err? && forall m :: 0 <= m < k ==> rs[m].Ok?
    ensures Collect(rs) == Err(rs[k].error)
  {
    if k < |rs| - 1 {
      CollectFirstError(rs[..|rs| - 1], k);
    } else {
      assert Collect(rs[..|rs| - 1]).Ok?;
    }
  }

  /** Once a prefix fails, the whole sequence fails the same way. */
  lemma {:induction false} CollectErrorSticks<T>(rs: seq<Result<T, StoiError>>, j: nat, m: nat)
    requires j <= m <= |rs| && Collect(rs[..j]).Err?
    ensures Collect(rs[..m]) == Collect(rs[..j])
    decreases m
  {
    if m > j {
      CollectErrorSticks(rs, j, m - 1);
      assert rs[..m][..m - 1] == rs[..m - 1];
    }
  }

  /** Collect on one more conversion. */
  lemma CollectSnoc<T>(rs: seq<Result<T, StoiError>>, j: nat, vs: seq<T>)
    requires j < |rs| && Collect(rs[..j]) == Ok(vs)
    ensures rs[j].Err? ==> Collect(rs[..j + 1]) == Err(rs[j].error)
    ensures rs[j].Ok? ==> Collect(rs[..j + 1]) == Ok(vs + [rs[j].value])
  {
    assert rs[..j + 1][..j] == rs[..j];
  }

  /** std::stoi applied to every cell. */
  function Conversions(cells: seq<string>): (rs: seq<Result<int, StoiError>>)
    ensures |rs| == |cells|
  {
    seq(|cells|, k requires 0 <= k < |cells| => Stoi(cells[k]))
  }

  /** The cells of one line converted in order. */
  function ParseRow(cells: seq<string>): Result<seq<int>, StoiError>
  {
    Collect(Conversions(cells))
  }

  /** Every line of a text turned into its row. */
  function RowsOf(lines: seq<string>): (rs: seq<Result<seq<int>, StoiError>>)
    ensures |rs| == |lines|
    ensures forall i :: 0 <= i < |lines| ==> rs[i] == ParseRow(Split(lines[i], ','))
  {
    seq(|lines|, i requires 0 <= i < |lines| => ParseRow(Split(lines[i], ',')))
  }

  /** What read_csv makes of the contents of a file it could open. */
  function ParseCsv(text: string): (r: Result<seq<seq<int>>, StoiError>)
    ensures var lines := Split(text, '\n');
      r.Ok? ==> |r.value| == |lines| && forall i :: 0 <= i < |lines| ==> ParseRow(Split(lines[i], ',')) == Ok(r.value[i])
  {
    Collect(RowsOf(Split(text, '\n')))
  }

  /** read_csv throws exactly when some line holds a cell std::stoi rejects. */
  lemma ParseCsvFails(text: string)
    ensures var lines := Split(text, '\n');
      ParseCsv(text).Err? <==> exists i :: 0 <= i < |lines| && ParseRow(Split(lines[i], ',')).Err?
  {
    var lines := Split(text, '\n');
    var rs := RowsOf(lines);
    if ParseCsv(text).Err? {
      var k :| 0 <= k < |rs| && rs[k].Err?;
      assert ParseRow(Split(lines[k], ',')).Err?;
    }
  }

  /** The inner loop of read_csv: std::stoi on every cell of one line. */
  method ParseLine(line: string) returns (r: Result<seq<int>, StoiError>)
    ensures r == ParseRow(Split(line, ','))
  {
    var cells := Split(line, ',');
    ghost var rs := Conversions(cells);
    var row: seq<int> := [];
    for j := 0 to |cells|
      invariant Collect(rs[..j]) == Ok(row)
    {
      var cell := Stoi(cells[j]);
      CollectSnoc(rs, j, row);
      if cell.Err? {
        CollectErrorSticks(rs, j + 1, |rs|);
        assert rs[..|rs|] == rs;
        return Err(cell.error);
      }
      row := row + [cell.value];
    }
    assert rs[..|rs|] == rs;
    return Ok(row);
  }

  /** read_csv: a file that cannot be opened gives no rows; otherwise each
      line becomes a row, and a cell std::stoi rejects ends the read with
      that exception. */
  method ReadCsv(file: Option<string>) returns (r: Result<seq<seq<int>>, StoiError>)
    ensures file.None? ==> r == Ok([])
    ensures file.Some? ==> r == ParseCsv(file.value)
  {
    if file.None? {
      return Ok([]);
    }
    var lines := Split(file.value, '\n');
    ghost var rs := RowsOf(lines);
    var data: seq<seq<int>> := [];
    for i := 0 to |lines|
      invariant Collect(rs[..i]) == Ok(data)
    {
      var row := ParseLine(lines[i]);
      CollectSnoc(rs, i, data);
      if row.Err? {
        CollectErrorSticks(rs, i + 1, |rs|);
        assert rs[..|rs|] == rs;
        return Err(row.error);
      }
      data := data + [row.value];
    }
    assert rs[..|rs|] == rs;
    return Ok(data);
  }

  // ---------------------------------------------------------------------
  // The file format read_csv accepts

  predicate InIntRange(grid: seq<seq<int>>)
  {
    forall i, j :: 0 <= i < |grid| && 0 <= j < |grid[i]| ==> INT_MIN <= grid[i][j] <= INT_MAX
  }

  function FormatCells(row: seq<int>): (cells: seq<string>)
    ensures |cells| == |row|
  {
    seq(|row|, k requires 0 <= k < |row| => FormatInt(row[k]))
  }

  /** A grid written as a CSV file: cells joined by ',', every row ended by a newline. */
  function FormatCsv(grid: seq<seq<int>>): string
  {
    Terminated(seq(|grid|, i requires 0 <= i < |grid| => Join(FormatCells(grid[i]), ',')), '\n')
  }

  lemma RowRoundTrip(row: seq<int>)
    requires forall j :: 0 <= j < |row| ==> INT_MIN <= row[j] <= INT_MAX
    ensures '\n' !in Join(FormatCells(row), ',')
    ensures ParseRow(Split(Join(FormatCells(row), ','), ',')) == Ok(row)
  {
    var cells := FormatCells(row);
    forall k | 0 <= k < |cells| ensures ',' !in cells[k] && '\n' !in cells[k] && |cells[k]| > 0 {
      StoiFormatInt(row[k]);
    }
    SplitJoin(cells, ',');
    JoinHasNo(cells, ',', '\n');
    var rs := Conversions(cells);
    forall k | 0 <= k < |rs| ensures rs[k] == Ok(row[k]) {
      StoiFormatInt(row[k]);
    }
    CollectOks(rs, row);
  }

  /** Conversions that all succeed collect to their values. */
  lemma {:induction false} CollectOks<T>(rs: seq<Result<T, StoiError>>, vs: seq<T>)
    requires |rs| == |vs| && forall k :: 0 <= k < |rs| ==> rs[k] == Ok(vs[k])
    ensures Collect(rs) == Ok(vs)
  {
    if |rs| > 0 {
      CollectOks(rs[..|rs| - 1], vs[..|vs| - 1]);
      assert vs == vs[..|vs| - 1] + [vs[|vs| - 1]];
    }
  }

  /** Joining parts that avoid a character avoids it too, as long as the separator does. */
  lemma {:induction false} JoinHasNo(parts: seq<string>, sep: char, c: char)
    requires c != sep && forall k :: 0 <= k < |parts| ==> c !in parts[k]
    ensures c !in Join(parts, sep)
  {
    if |parts| > 1 {
      JoinHasNo(parts[1..], sep, c);
    }
  }

  /** read_csv reads back every grid of ints written as a CSV file. */
  lemma CsvRoundTrip(grid: seq<seq<int>>)
    requires InIntRange(grid)
    ensures ParseCsv(FormatCsv(grid)) == Ok(grid)
  {
    var lines := seq(|grid|, i requires 0 <= i < |grid| => Join(FormatCells(grid[i]), ','));
    forall i | 0 <= i < |grid| ensures '\n' !in lines[i] {
      RowRoundTrip(grid[i]);
    }
    SplitTerminated(lines, '\n');
    var rs := RowsOf(lines);
    forall i | 0 <= i < |rs| ensures rs[i] == Ok(grid[i]) {
      RowRoundTrip(grid[i]);
    }
    CollectOks(rs, grid);
  }

}
