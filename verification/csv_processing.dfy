/** The CSV benchmark: writing employee rows as CSV text, and one pass over
    the parsed rows that counts departments, age bands, locations and skills,
    tracks salaries, and derives a few strings from each name. Rows arrive
    already parsed: ages and salaries are integers, and the performance score
    (floating point) is left out. */
module CsvProcessing {
  import opened Common
  import opened Grouping

  // ---------------------------------------------------------------------------
  // Writing: generate_csv_data
  // ---------------------------------------------------------------------------

  /** The generator's rule for one field: wrap it in double quotes when it
      contains a comma or a double quote, leaving any inner quote as it is. */
  function QuoteField(f: string): (q: string)
    ensures (',' in f || '"' in f) ==> q == ['"'] + f + ['"']
    ensures !(',' in f || '"' in f) ==> q == f
  {
    if ',' in f || '"' in f then ['"'] + f + ['"'] else f
  }

  /** Every inner double quote doubled, as section 2 of RFC 4180 requires
      inside a quoted field. */
  function Double(f: string): (d: string)
    ensures |d| >= |f|
  {
    if |f| == 0 then []
    else (if f[0] == '"' then ['"', '"'] else [f[0]]) + Double(f[1..])
  }

  /** The quoting rule with inner quotes escaped. */
  function QuoteFieldEscaped(f: string): (q: string)
    ensures !(',' in f || '"' in f) ==> q == f
  {
    if ',' in f || '"' in f then ['"'] + Double(f) + ['"'] else f
  }

  /** The inside of a quoted field read back: a doubled quote stands for one
      quote, and a lone quote makes the field malformed. */
  function Undouble(s: string): (r: Option<string>)
    decreases |s|
  {
    if |s| == 0 then Some([])
    else if s[0] != '"' then
      (match Undouble(s[1..]) case None => None case Some(t) => Some([s[0]] + t))
    else if |s| >= 2 && s[1] == '"' then
      (match Undouble(s[2..]) case None => None case Some(t) => Some(['"'] + t))
    else None
  }

  /** One field read as section 2 of RFC 4180 describes: either enclosed in
      double quotes, with inner quotes doubled, or free of double quotes. */
  function ReadField(s: string): (r: Option<string>)
  {
    if |s| >= 2 && s[0] == '"' && s[|s| - 1] == '"' then Undouble(s[1..|s| - 1])
    else if '"' in s then None
    else Some(s)
  }

  lemma {:induction false} UndoubleDouble(f: string)
    ensures Undouble(Double(f)) == Some(f)
    decreases |f|
  {
    if |f| > 0 {
      UndoubleDouble(f[1..]);
      var head: string := if f[0] == '"' then ['"', '"'] else [f[0]];
      assert Double(f) == head + Double(f[1..]);
      if f[0] == '"' {
        assert Double(f)[2..] == Double(f[1..]);
      } else {
        assert Double(f)[1..] == Double(f[1..]);
      }
      assert f == [f[0]] + f[1..];
    }
  }

  /** With inner quotes escaped, every field reads back as itself. */
  lemma QuoteEscapedRoundTrip(f: string)
    ensures ReadField(QuoteFieldEscaped(f)) == Some(f)
  {
    if ',' in f || '"' in f {
      var q := ['"'] + Double(f) + ['"'];
      assert q[1..|q| - 1] == Double(f);
      UndoubleDouble(f);
    }
  }

  /** Reading back never yields a longer string, and a strictly shorter one
      once there is a quote to undo. */
  lemma {:induction false} UndoubleShrinks(s: string)
    ensures Undouble(s).Some? ==> |Undouble(s).value| <= |s|
    ensures Undouble(s).Some? && '"' in s ==> |Undouble(s).value| < |s|
    decreases |s|
  {
    if |s| > 0 {
      if s[0] != '"' {
        UndoubleShrinks(s[1..]);
        if '"' in s {
          assert '"' in s[1..] by {
            var i :| 0 <= i < |s| && s[i] == '"';
            assert s[1..][i - 1] == '"';
          }
        }
      } else if |s| >= 2 && s[1] == '"' {
        UndoubleShrinks(s[2..]);
      }
    }
  }

  /** As written, a field with a double quote never reads back as itself:
      the quotes inside are either lone, which is malformed, or read as
      fewer quotes. */
  lemma QuoteFieldLosesQuotes(f: string)
    requires '"' in f
    ensures ReadField(QuoteField(f)) != Some(f)
  {
    var q := ['"'] + f + ['"'];
    assert q[1..|q| - 1] == f;
    UndoubleShrinks(f);
  }

  /** The concrete case: `a"b` is written as `"a"b"`, whose inner quote is lone. */
  lemma QuoteFieldExample()
    ensures QuoteField("a\"b") == "\"a\"b\""
    ensures ReadField(QuoteField("a\"b")).None?
  {
    assert '"' in "a\"b" by { assert "a\"b"[1] == '"'; }
    var inner := "a\"b";
    assert inner[1..][0] == '"' && inner[1..][1] != '"';
    assert Undouble(inner[1..]) == None;
  }

  /** A data row: its fields, quoted by the rule above, joined by commas. */
  function FormatRow(fields: seq<string>): string {
    Join(Project(fields, QuoteField), ",")
  }

  /** `generate_csv_data` for given headers and rows: the header line joined
      without quoting, then one line per row, joined by newlines. */
  function GenerateCsv(headers: seq<string>, rows: seq<seq<string>>): string {
    Join([Join(headers, ",")] + Project(rows, FormatRow), "\n")
  }

  /** Fields free of commas and quotes are written as they are, so splitting
      a row at its commas gives its fields back. */
  lemma FormatRowPlain(fields: seq<string>)
    requires |fields| >= 1
    requires forall i :: 0 <= i < |fields| ==> ',' !in fields[i] && '"' !in fields[i]
    ensures Split(FormatRow(fields), ',') == fields
  {
    assert Project(fields, QuoteField) == fields;
    SplitJoin(fields, ',');
  }

  /** A character other than a comma or a quote appears in a written row
      only if it appears in one of its fields. */
  lemma FormatRowAvoids(fields: seq<string>, c: char)
    requires c != ',' && c != '"'
    requires forall i :: 0 <= i < |fields| ==> c !in fields[i]
    ensures c !in FormatRow(fields)
  {
    var quoted := Project(fields, QuoteField);
    forall i | 0 <= i < |quoted| ensures c !in quoted[i] {
      assert quoted[i] == QuoteField(fields[i]);
    }
    JoinAvoids(quoted, ",", c);
  }

  /** When no field holds a newline, the text splits into the header line
      followed by the rows' lines, in order. */
  lemma GenerateCsvLines(headers: seq<string>, rows: seq<seq<string>>)
    requires forall i :: 0 <= i < |headers| ==> '\n' !in headers[i]
    requires forall r :: 0 <= r < |rows| ==> forall i :: 0 <= i < |rows[r]| ==> '\n' !in rows[r][i]
    ensures Split(GenerateCsv(headers, rows), '\n') == [Join(headers, ",")] + Project(rows, FormatRow)
  {
    var body := Project(rows, FormatRow);
    var lines := [Join(headers, ",")] + body;
    JoinAvoids(headers, ",", '\n');
    forall r | 0 <= r < |body| ensures '\n' !in body[r] {
      FormatRowAvoids(rows[r], '\n');
    }
    forall i | 0 <= i < |lines| ensures '\n' !in lines[i] {
      if i > 0 {
        assert lines[i] == body[i - 1];
      }
    }
    SplitJoin(lines, '\n');
  }

  // ---------------------------------------------------------------------------
  // Reading: process_csv_data over parsed rows
  // ---------------------------------------------------------------------------

  datatype Row = Row(
    name: string, email: string, age: int, department: string, salary: int,
    hireDate: string, location: string, skills: string)

  function Department(r: Row): string { r.department }
  function Location(r: Row): string { r.location }
  function Salary(r: Row): int { r.salary }

  /** The three age bands of `age_distribution`. */
  predicate Under30(r: Row) { r.age < 30 }
  predicate From30To50(r: Row) { 30 <= r.age <= 50 }
  predicate Over50(r: Row) { r.age > 50 }

  /** `float('inf')` or an integer: the running minimum starts infinite. */
  datatype Bound = Infinity | Finite(value: int)

  function MinBound(b: Bound, x: int): Bound {
    if b.Finite? && b.value <= x then b else Finite(x)
  }

  /** The strings derived from a name. */
  datatype ProcessedName = ProcessedName(
    original: string, uppercase: string, lowercase: string, length: nat,
    reversed: string, words: seq<string>, startsWithVowel: bool)

  function Reverse(s: string): (r: string)
    ensures |r| == |s|
    ensures forall i :: 0 <= i < |s| ==> r[i] == s[|s| - 1 - i]
  {
    seq(|s|, i requires 0 <= i < |s| => s[|s| - 1 - i])
  }

  lemma ReverseInvolution(s: string)
    ensures Reverse(Reverse(s)) == s
  {
  }

  /** The strings derived from a row's name. `starts_with_vowel` reads
      `name[0]`, which raises on an empty name: such a row never gets here
      (see `RowError`), and the field is then false. */
  function ProcessName(r: Row): ProcessedName {
    var name := r.name;
    ProcessedName(name, Upper(name), Lower(name), |name|, Reverse(name), Split(name, '_'),
                  |name| > 0 && LowerChar(name[0]) in "aeiou")
  }

  /** Reading back a processed name: its words joined by `_` are the name,
      and so is its reversal reversed. */
  lemma ProcessNameRecovers(r: Row)
    ensures var p := ProcessName(r);
      Join(p.words, "_") == p.original == Reverse(p.reversed) && p.length == |p.original|
      && Lower(p.uppercase) == p.lowercase
  {
    JoinSplit(r.name, '_');
    ReverseInvolution(r.name);
    LowerUpper(r.name);
  }

  /** `'@' in email and '.' in email.split('@')[1]`: a dot between the first
      `@` and the next one (or the end). */
  predicate IsValidEmail(email: string) {
    '@' in email && '.' in Split(email, '@')[1]
  }

  /** The validity test in terms of positions: after the first `@`, a dot
      comes before any further `@`. */
  lemma EmailValidity(email: string)
    ensures IsValidEmail(email) <==>
      '@' in email &&
      (var after := email[FirstIndex(email, '@') + 1..];
       '.' in (if '@' in after then after[..FirstIndex(after, '@')] else after))
  {
    if '@' in email {
      var after := email[FirstIndex(email, '@') + 1..];
      assert Split(email, '@')[1] == Split(after, '@')[0];
    }
  }

  /** `employee1@company.com`, the generator's form, is valid. */
  lemma GeneratedEmailValid()
    ensures IsValidEmail("employee1@company.com")
  {
    var local, domain := "employee1", "company.com";
    assert '@' !in local && '@' !in domain;
    assert "employee1@company.com" == local + ['@'] + domain;
    SplitStep(local, '@', domain);
    assert domain[7] == '.';
  }

  /** A dot only before the `@` does not count. */
  lemma DotlessDomainInvalid()
    ensures !IsValidEmail("first.last@localhost")
  {
    var local, domain := "first.last", "localhost";
    assert '@' !in local && '@' !in domain && '.' !in domain;
    assert "first.last@localhost" == local + ['@'] + domain;
    SplitStep(local, '@', domain);
  }

  /** Only the text up to a second `@` is looked at. */
  lemma SecondAtInvalid()
    ensures !IsValidEmail("a@b@c.d")
  {
    assert "a@b@c.d" == "a" + ['@'] + ("b" + ['@'] + "c.d");
    assert '@' !in "a" && '@' !in "b" && '.' !in "b";
    SplitStep("a", '@', "b" + ['@'] + "c.d");
    SplitStep("b", '@', "c.d");
  }

  /** `hire_date.split('-')` must give exactly three parts to unpack. */
  predicate DateUnpacks(date: string) {
    |Split(date, '-')| == 3
  }

  /** The exception a row raises, if any: `name[0]` on an empty name raises
      `IndexError`; a hire date that is not three `-`-separated parts makes
      the unpacking raise `ValueError`. */
  function RowError(r: Row): Option<string> {
    if |r.name| == 0 then Some("IndexError")
    else if !DateUnpacks(r.hireDate) then Some("ValueError")
    else None
  }

  /** The exception of the first failing row, which ends the pass. */
  function FirstError(rows: seq<Row>): (e: Option<string>)
    ensures e.None? <==> forall i :: 0 <= i < |rows| ==> RowError(rows[i]).None?
    ensures e.Some? ==> exists i :: 0 <= i < |rows| && RowError(rows[i]) == e &&
                          forall j :: 0 <= j < i ==> RowError(rows[j]).None?
  {
    if |rows| == 0 then None
    else if RowError(rows[0]).Some? then RowError(rows[0])
    else
      var e := FirstError(rows[1..]);
      assert forall i :: 1 <= i < |rows| ==> rows[i] == rows[1..][i - 1];
      e
  }

  /** The statistics as the loop builds them. */
  datatype Acc = Acc(
    total: nat, departments: map<string, nat>, under30: nat, from30To50: nat, over50: nat,
    salaryMin: Bound, salaryMax: int, salaryTotal: int, locations: map<string, nat>,
    skills: map<string, nat>, names: seq<ProcessedName>)

  const NewAcc := Acc(0, map[], 0, 0, 0, Infinity, 0, 0, map[], map[], [])

  /** `[skill.strip() for skill in row['skills'].split(';')]`. */
  function Skills(r: Row): seq<string> {
    Project(Split(r.skills, ';'), Strip)
  }

  /** One iteration of the loop, for a row that raises nothing. */
  function RowStep(a: Acc, r: Row): Acc {
    Acc(a.total + 1, Bump(a.departments, r.department),
        a.under30 + (if r.age < 30 then 1 else 0),
        a.from30To50 + (if 30 <= r.age <= 50 then 1 else 0),
        a.over50 + (if r.age > 50 then 1 else 0),
        MinBound(a.salaryMin, r.salary), if r.salary > a.salaryMax then r.salary else a.salaryMax,
        a.salaryTotal + r.salary, Bump(a.locations, r.location), BumpAll(a.skills, Skills(r)),
        a.names + [ProcessName(r)])
  }

  /** The finished statistics; `average` is `total / count`, kept as the
      pair, and present only when there is at least one row. */
  datatype Stats = Stats(
    totalEmployees: nat, departmentCounts: map<string, nat>,
    under30: nat, from30To50: nat, over50: nat,
    salaryMin: Bound, salaryMax: int, salaryTotal: int, salaryAverage: Option<(int, nat)>,
    locationDistribution: map<string, nat>, skillsFrequency: map<string, nat>,
    processedNames: seq<ProcessedName>)

  function Finish(a: Acc): (s: Stats)
  {
    Stats(a.total, a.departments, a.under30, a.from30To50, a.over50,
          a.salaryMin, a.salaryMax, a.salaryTotal,
          if a.total > 0 then Some((a.salaryTotal, a.total)) else None,
          a.locations, a.skills, a.names)
  }

  /** `process_csv_data` over parsed rows: the first row that raises ends the
      pass with its exception. */
  function ProcessCsvData(rows: seq<Row>): (r: Result<Stats, string>)
    ensures r.Failure? <==> exists i :: 0 <= i < |rows| && RowError(rows[i]).Some?
    ensures r.Success? ==> r.value.totalEmployees == |rows|
    ensures r.Success? ==> (r.value.salaryAverage.Some? <==> |rows| > 0)
  {
    match FirstError(rows)
    case Some(e) => Failure(e)
    case None =>
      TotalOf(rows);
      Success(Finish(Pass(rows)))
  }

  // ---------------------------------------------------------------------------
  // What the pass computes
  // ---------------------------------------------------------------------------

  /** Every skill of every row, stripped, in order. */
  function AllSkills(rows: seq<Row>): seq<string>
    decreases |rows|
  {
    if |rows| == 0 then [] else AllSkills(rows[..|rows| - 1]) + Skills(rows[|rows| - 1])
  }

  /** The pass over rows that raise nothing, one row at a time. */
  function Pass(rows: seq<Row>): Acc {
    Fold(rows, NewAcc, RowStep)
  }

  lemma PassSnoc(rows: seq<Row>)
    requires |rows| > 0
    ensures Pass(rows) == RowStep(Pass(rows[..|rows| - 1]), rows[|rows| - 1])
  {
  }

  lemma {:induction false} TotalOf(rows: seq<Row>)
    ensures Pass(rows).total == |rows|
    decreases |rows|
  {
    if |rows| > 0 {
      PassSnoc(rows);
      TotalOf(rows[..|rows| - 1]);
    }
  }

  /** `department_counts` and `location_distribution` tally their columns. */
  lemma {:induction false} ColumnCountsOf(rows: seq<Row>)
    ensures Pass(rows).departments == Tally(Project(rows, Department))
    ensures Pass(rows).locations == Tally(Project(rows, Location))
    decreases |rows|
  {
    if |rows| > 0 {
      var init, r := rows[..|rows| - 1], rows[|rows| - 1];
      PassSnoc(rows);
      ColumnCountsOf(init);
      SplitLast(rows);
      ProjectSnoc(init, r, Department);
      ProjectSnoc(init, r, Location);
      TallySnoc(Project(init, Department), r.department);
      TallySnoc(Project(init, Location), r.location);
    }
  }

  /** Each age band counts the rows whose age falls in it. */
  lemma {:induction false} AgeBandsOf(rows: seq<Row>)
    ensures Pass(rows).under30 == CountIf(rows, Under30)
    ensures Pass(rows).from30To50 == CountIf(rows, From30To50)
    ensures Pass(rows).over50 == CountIf(rows, Over50)
    decreases |rows|
  {
    if |rows| > 0 {
      var init, r := rows[..|rows| - 1], rows[|rows| - 1];
      PassSnoc(rows);
      AgeBandsOf(init);
      SplitLast(rows);
      CountIfSnoc(init, r, Under30);
      CountIfSnoc(init, r, From30To50);
      CountIfSnoc(init, r, Over50);
    }
  }

  /** `skills_frequency` tallies every stripped skill of every row. */
  lemma {:induction false} SkillsOf(rows: seq<Row>)
    ensures Pass(rows).skills == Tally(AllSkills(rows))
    decreases |rows|
  {
    if |rows| > 0 {
      var init, r := rows[..|rows| - 1], rows[|rows| - 1];
      PassSnoc(rows);
      SkillsOf(init);
      BumpAllTally(AllSkills(init), Skills(r));
    }
  }

  /** `salary_stats['total']` is the sum of the salaries. */
  lemma {:induction false} SalaryTotalOf(rows: seq<Row>)
    ensures Pass(rows).salaryTotal == Sum(Project(rows, Salary))
    decreases |rows|
  {
    if |rows| > 0 {
      var init, r := rows[..|rows| - 1], rows[|rows| - 1];
      PassSnoc(rows);
      SalaryTotalOf(init);
      SplitLast(rows);
      ProjectSnoc(init, r, Salary);
      SumAppend(Project(init, Salary), [r.salary]);
    }
  }

  /** `m` is the running minimum of `ss` started at infinity. */
  predicate IsMinOf(m: Bound, ss: seq<int>) {
    && (m.Infinity? <==> |ss| == 0)
    && (m.Finite? ==> m.value in ss && forall x :: x in ss ==> m.value <= x)
  }

  /** `m` is the running maximum of `ss` started at 0. */
  predicate IsMaxFromZero(m: int, ss: seq<int>) {
    && m >= 0
    && (forall x :: x in ss ==> x <= m)
    && (m == 0 || m in ss)
  }

  lemma MinStep(m: Bound, ss: seq<int>, x: int)
    requires IsMinOf(m, ss)
    ensures IsMinOf(MinBound(m, x), ss + [x])
  {
  }

  lemma MaxStep(m: int, ss: seq<int>, x: int)
    requires IsMaxFromZero(m, ss)
    ensures IsMaxFromZero(if x > m then x else m, ss + [x])
  {
  }

  /** `salary_stats['min']` and `['max']`: the minimum stays infinite
      without rows and is otherwise the least salary; the maximum starts at
      0, so it is at least 0 and every salary, and it is 0 or a salary. */
  lemma {:induction false} SalaryBoundsOf(rows: seq<Row>)
    ensures IsMinOf(Pass(rows).salaryMin, Project(rows, Salary))
    ensures IsMaxFromZero(Pass(rows).salaryMax, Project(rows, Salary))
    decreases |rows|
  {
    if |rows| > 0 {
      var init, r := rows[..|rows| - 1], rows[|rows| - 1];
      var a := Pass(init);
      PassSnoc(rows);
      SalaryBoundsOf(init);
      SplitLast(rows);
      ProjectSnoc(init, r, Salary);
      MinStep(a.salaryMin, Project(init, Salary), r.salary);
      MaxStep(a.salaryMax, Project(init, Salary), r.salary);
    }
  }

  /** One processed name per row, in order. */
  lemma {:induction false} NamesOf(rows: seq<Row>)
    ensures Pass(rows).names == Project(rows, ProcessName)
    decreases |rows|
  {
    if |rows| > 0 {
      var init, r := rows[..|rows| - 1], rows[|rows| - 1];
      PassSnoc(rows);
      NamesOf(init);
      SplitLast(rows);
      ProjectSnoc(init, r, ProcessName);
    }
  }

  /** The age bands partition the rows. */
  lemma {:induction false} AgeBandsPartition(rows: seq<Row>)
    ensures CountIf(rows, Under30) + CountIf(rows, From30To50) + CountIf(rows, Over50) == |rows|
    decreases |rows|
  {
    if |rows| > 0 {
      AgeBandsPartition(rows[1..]);
    }
  }

  /** On success: the age bands, the department counts and the location
      counts each add up to `total_employees`; each skill occurrence counts
      once; the salary trackers and processed names are as above. */
  lemma ProcessCsvDataSound(rows: seq<Row>)
    requires ProcessCsvData(rows).Success?
    ensures var s := ProcessCsvData(rows).value;
      && s.under30 + s.from30To50 + s.over50 == s.totalEmployees
      && SumOver(s.departmentCounts, DistinctKeys(Project(rows, Department))) == s.totalEmployees
      && SumOver(s.locationDistribution, DistinctKeys(Project(rows, Location))) == s.totalEmployees
      && s.skillsFrequency == Tally(AllSkills(rows))
      && s.salaryTotal == Sum(Project(rows, Salary))
      && IsMinOf(s.salaryMin, Project(rows, Salary))
      && IsMaxFromZero(s.salaryMax, Project(rows, Salary))
      && s.processedNames == Project(rows, ProcessName)
  {
    TotalOf(rows);
    ColumnCountsOf(rows);
    AgeBandsOf(rows);
    AgeBandsPartition(rows);
    SkillsOf(rows);
    SalaryTotalOf(rows);
    SalaryBoundsOf(rows);
    NamesOf(rows);
    TallySum(Project(rows, Department));
    TallySum(Project(rows, Location));
  }
}
