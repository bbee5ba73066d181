/**
 * The schedule compiler of main.py: which schedule files are processed,
 * the WBS filter and reroot, the categorical palette, the chronology check,
 * frame quantisation, the per-file loop and the legacy concat manifest.
 * Schedules arrive as already-read rows; CSV reading and writing, the
 * Blender and ffmpeg sub-processes and the legend overlay are outside.
 */
module Schedule {
  import opened Outcomes
  import opened Strings
  import opened Frames

  // ---------------------------------------------------------------------
  // data

  /** The `--visual_type` choices. */
  datatype VisualType = Simple | Wbs | Company | ActivityType | Heatmap
  {
    predicate Categorical() { this == Company || this == ActivityType }
  }

  /** The command-line settings the compiler reads; `topWbs == ""` is "not given". */
  datatype Config = Config(visualType: VisualType, topWbs: string)

  /** One schedule row with the columns the compiler uses. */
  datatype Record = Record(
    activity: string,
    wbs: string,
    company: string,
    activityType: string,
    start: int,
    end: int)

  /** A palette entry before `colorsys.hsv_to_rgb`. */
  datatype Hsv = Hsv(hue: real, saturation: real, value: real)

  /** One row of the hand-off file. */
  datatype Canonical = Canonical(activity: string, startFrame: int, endFrame: int, color: Option<Hsv>)

  datatype CompileError = EndBeforeStart(activity: string, start: int, end: int)

  // ---------------------------------------------------------------------
  // which schedule files (main.py:71-88)

  /** What the schedule path turned out to be; a directory comes with its listing. */
  datatype ScheduleInput =
    | FileInput(path: string)
    | DirectoryInput(path: string, entries: seq<string>)
    | OtherInput(path: string)

  datatype DiscoveryError = NotACsvFile(path: string) | NoCsvFiles(path: string) | NotFileOrDirectory(path: string)

  predicate IsCsvName(name: string)
  {
    EndsWith(Lower(name), ".csv")
  }

  /** The generator of main.py:79-81, in listing order. */
  function CsvPaths(dir: string, entries: seq<string>): (paths: seq<string>)
    ensures forall p :: p in paths <==> exists f :: f in entries && IsCsvName(f) && p == JoinPath(dir, f)
    decreases |entries|
  {
    if entries == [] then []
    else
      assert forall f :: f in entries <==> f == entries[0] || f in entries[1..];
      (if IsCsvName(entries[0]) then [JoinPath(dir, entries[0])] else []) + CsvPaths(dir, entries[1..])
  }

  /** Each `.csv` entry yields its joined path once per occurrence in the listing. */
  lemma {:induction false} CsvPathsCount(dir: string, entries: seq<string>)
    ensures forall f :: IsCsvName(f) ==> multiset(CsvPaths(dir, entries))[JoinPath(dir, f)] == multiset(entries)[f]
    decreases |entries|
  {
    if entries != [] {
      var e, rest := entries[0], entries[1..];
      assert entries == [e] + rest;
      CsvPathsCount(dir, rest);
      forall f | IsCsvName(f)
        ensures multiset(CsvPaths(dir, entries))[JoinPath(dir, f)] == multiset(entries)[f]
      {
        if JoinPath(dir, e) == JoinPath(dir, f) {
          JoinPathInjective(dir, e, f);
        }
      }
    }
  }

  /** `sorted(...)` over the generator. */
  function SortedCsvPaths(dir: string, entries: seq<string>): (found: seq<string>)
    ensures Sorted(found)
    ensures multiset(found) == multiset(CsvPaths(dir, entries))
    ensures forall p :: p in found <==> exists f :: f in entries && IsCsvName(f) && p == JoinPath(dir, f)
    ensures found == [] <==> forall f :: f in entries ==> !IsCsvName(f)
  {
    var paths := CsvPaths(dir, entries);
    var found := SortStrings(paths);
    assert forall p :: p in found <==> p in multiset(found);
    assert forall p :: p in paths <==> p in multiset(paths);
    assert |found| == |multiset(found)| == |multiset(paths)| == |paths|;
    assert (exists f :: f in entries && IsCsvName(f)) ==> paths != [] by {
      if exists f :: f in entries && IsCsvName(f) {
        var f :| f in entries && IsCsvName(f);
        assert JoinPath(dir, f) in paths;
      }
    }
    found
  }

  function DiscoverSchedules(input: ScheduleInput): (r: Result<seq<string>, DiscoveryError>)
    ensures input.FileInput? ==>
              (r.Success? <==> IsCsvName(input.path)) && (r.Success? ==> r.value == [input.path])
    ensures input.DirectoryInput? ==>
              (r.Failure? <==> forall f :: f in input.entries ==> !IsCsvName(f))
    ensures input.DirectoryInput? && r.Success? ==>
              && |r.value| >= 1
              && Sorted(r.value)
              && multiset(r.value) == multiset(CsvPaths(input.path, input.entries))
              && forall p :: p in r.value <==>
                   exists f :: f in input.entries && IsCsvName(f) && p == JoinPath(input.path, f)
    ensures input.OtherInput? ==> r == Failure(NotFileOrDirectory(input.path))
  {
    match input
    case FileInput(path) =>
      if IsCsvName(path) then Success([path]) else Failure(NotACsvFile(path))
    case DirectoryInput(dir, entries) =>
      var found := SortedCsvPaths(dir, entries);
      if found == [] then Failure(NoCsvFiles(dir)) else Success(found)
    case OtherInput(path) =>
      Failure(NotFileOrDirectory(path))
  }

  // ---------------------------------------------------------------------
  // WBS filter and reroot (main.py:103-121)

  /** The mask of main.py:107-109: `top` is one whole segment of the WBS path. */
  predicate InWbs(wbs: string, top: string)
  {
    top in Split(wbs, '.')
  }

  /** `schedule[mask]` (main.py:110): the rows whose WBS has `top` as a segment. */
  function FilterWbs(rows: seq<Record>, top: string): (kept: seq<Record>)
    ensures forall i :: 0 <= i < |kept| ==> InWbs(kept[i].wbs, top)
    decreases |rows|
  {
    if rows == [] then []
    else
      var rest := FilterWbs(rows[1..], top);
      if InWbs(rows[0].wbs, top) then [rows[0]] + rest else rest
  }

  /** The kept rows are exactly the rows in the WBS subtree, with their multiplicity. */
  lemma {:induction false} FilterWbsCount(rows: seq<Record>, top: string)
    ensures forall x :: multiset(FilterWbs(rows, top))[x] == if InWbs(x.wbs, top) then multiset(rows)[x] else 0
    decreases |rows|
  {
    if rows != [] {
      assert rows == [rows[0]] + rows[1..];
      FilterWbsCount(rows[1..], top);
    }
  }

  /** A single row is kept exactly when `top` is one of its WBS segments. */
  lemma FilterWbsOne(r: Record, top: string)
    ensures FilterWbs([r], top) == if InWbs(r.wbs, top) then [r] else []
  {
    assert [r][1..] == [];
  }

  /** Filtering a row followed by more rows: the row's own result, then the rest filtered. */
  lemma FilterWbsCons(r: Record, rows: seq<Record>, top: string)
    ensures FilterWbs([r] + rows, top) == FilterWbs([r], top) + FilterWbs(rows, top)
  {
    assert ([r] + rows)[1..] == rows;
    FilterWbsOne(r, top);
  }

  /** The mask keeps input order: filtering a concatenation concatenates the filtered parts. */
  lemma {:induction false} FilterWbsAppend(a: seq<Record>, b: seq<Record>, top: string)
    ensures FilterWbs(a + b, top) == FilterWbs(a, top) + FilterWbs(b, top)
    decreases |a|
  {
    if a == [] {
      assert a + b == b;
    } else {
      var x, t := a[0], a[1..];
      assert a == [x] + t;
      assert a + b == [x] + (t + b);
      FilterWbsCons(x, t + b, top);
      FilterWbsCons(x, t, top);
      FilterWbsAppend(t, b, top);
      var fx, ft, fb := FilterWbs([x], top), FilterWbs(t, top), FilterWbs(b, top);
      assert FilterWbs(a + b, top) == fx + (ft + fb);
      assert FilterWbs(a, top) == fx + ft;
      assert fx + (ft + fb) == (fx + ft) + fb;
    }
  }

  /** `reroot_wbs`; None is the ValueError of `parts.index(root)`. */
  function RerootWbs(wbs: string, root: string): (r: Option<string>)
    ensures r.Some? <==> InWbs(wbs, root)
  {
    var parts := Split(wbs, '.');
    if root in parts then Some(Join(parts[IndexOf(parts, root)..], '.')) else None
  }

  /** Rerooting keeps the segments from the first `root` on, so it yields a suffix starting at `root`. */
  lemma RerootWbsSpec(wbs: string, root: string)
    ensures RerootWbs(wbs, root).Some? <==> InWbs(wbs, root)
    ensures RerootWbs(wbs, root).Some? ==>
              var v := RerootWbs(wbs, root).value;
              var parts := Split(wbs, '.');
              var i := IndexOf(parts, root);
              && Split(v, '.') == parts[i..]
              && Split(v, '.')[0] == root
              && root !in parts[..i]
              && EndsWith(wbs, v)
              && (i > 0 ==> wbs == Join(parts[..i], '.') + "." + v)
  {
    var parts := Split(wbs, '.');
    if root in parts {
      var i := IndexOf(parts, root);
      var v := Join(parts[i..], '.');
      SplitJoin(parts[i..], '.');
      JoinSplit(wbs, '.');
      if i > 0 {
        JoinAt(parts, i, '.');
        var prefix := Join(parts[..i], '.') + ".";
        assert wbs == prefix + v;
        assert wbs[|wbs| - |v|..] == v;
      } else {
        assert parts[i..] == parts;
      }
    }
  }

  /** Rerooting an already rerooted path changes nothing. */
  lemma RerootWbsIdempotent(wbs: string, root: string)
    requires InWbs(wbs, root)
    ensures RerootWbs(RerootWbs(wbs, root).value, root) == RerootWbs(wbs, root)
  {
    RerootWbsSpec(wbs, root);
    var v := RerootWbs(wbs, root).value;
    var vp := Split(v, '.');
    assert vp[0] == root;
    assert IndexOf(vp, root) == 0;
    assert vp[0..] == vp;
    JoinSplit(v, '.');
  }

  /** A substring of the path is not enough: "1" is inside "A.10" but is not a segment of it. */
  lemma SubstringIsNotASegment()
    ensures !InWbs("A.10", "1")
  {
    SplitAtSeparator("A", "10", '.');
    SplitNoSeparator("10", '.');
  }

  /** The rerooting of main.py:119-121: each row keeps every column except its WBS, which is rerooted at `top`. */
  function RerootAll(rows: seq<Record>, top: string): (r: seq<Record>)
    requires forall i :: 0 <= i < |rows| ==> InWbs(rows[i].wbs, top)
    ensures |r| == |rows|
    ensures forall i :: 0 <= i < |r| ==> r[i] == rows[i].(wbs := r[i].wbs) && RerootWbs(rows[i].wbs, top) == Some(r[i].wbs)
  {
    seq(|rows|, i requires 0 <= i < |rows| => rows[i].(wbs := RerootWbs(rows[i].wbs, top).value))
  }

  /** The rows the rest of the run sees: every row, or the rerooted rows of the WBS filter. */
  function SelectRows(rows: seq<Record>, top: string): (sel: seq<Record>)
    ensures top == "" ==> sel == rows
    ensures top != "" ==> forall i :: 0 <= i < |sel| ==> Split(sel[i].wbs, '.')[0] == top
    ensures top != "" ==>
              var kept := FilterWbs(rows, top);
              && |sel| == |kept|
              && forall i :: 0 <= i < |sel| ==> sel[i] == kept[i].(wbs := sel[i].wbs) && RerootWbs(kept[i].wbs, top) == Some(sel[i].wbs)
  {
    if top == "" then rows
    else
      var kept := FilterWbs(rows, top);
      assert forall i :: 0 <= i < |kept| ==> Split(RerootWbs(kept[i].wbs, top).value, '.')[0] == top by {
        forall i | 0 <= i < |kept| ensures Split(RerootWbs(kept[i].wbs, top).value, '.')[0] == top {
          RerootWbsSpec(kept[i].wbs, top);
        }
      }
      RerootAll(kept, top)
  }

  /** Reordering the input rows reorders the selected rows and keeps their set. */
  lemma SelectRowsIgnoresOrder(rows1: seq<Record>, rows2: seq<Record>, top: string)
    requires multiset(rows1) == multiset(rows2)
    ensures forall x :: x in SelectRows(rows1, top) <==> x in SelectRows(rows2, top)
  {
    if top == "" {
      assert forall x :: x in rows1 <==> x in multiset(rows1);
      assert forall x :: x in rows2 <==> x in multiset(rows2);
    } else {
      var k1, k2 := FilterWbs(rows1, top), FilterWbs(rows2, top);
      FilterWbsCount(rows1, top);
      FilterWbsCount(rows2, top);
      assert multiset(k1) == multiset(k2);
      assert forall x :: x in k1 <==> x in k2 by {
        assert forall x :: x in k1 <==> x in multiset(k1);
        assert forall x :: x in k2 <==> x in multiset(k2);
      }
      RerootAllSameMembers(k1, k2, top);
      RerootAllSameMembers(k2, k1, top);
    }
  }

  lemma RerootAllSameMembers(k1: seq<Record>, k2: seq<Record>, top: string)
    requires forall i :: 0 <= i < |k1| ==> InWbs(k1[i].wbs, top)
    requires forall i :: 0 <= i < |k2| ==> InWbs(k2[i].wbs, top)
    requires forall x :: x in k1 ==> x in k2
    ensures forall x :: x in RerootAll(k1, top) ==> x in RerootAll(k2, top)
  {
    var s1, s2 := RerootAll(k1, top), RerootAll(k2, top);
    forall x | x in s1 ensures x in s2 {
      var i :| 0 <= i < |s1| && s1[i] == x;
      assert k1[i] in k2;
      var j :| 0 <= j < |k2| && k2[j] == k1[i];
      assert s2[j] == x;
    }
  }

  // ---------------------------------------------------------------------
  // categorical palette (main.py:124-142)

  /** `generate_palette(n)` before the HSV to RGB conversion: hue i/n, s = 0.8, v = 0.9. */
  function Palette(n: nat): (p: seq<Hsv>)
    ensures |p| == n
    ensures forall i :: 0 <= i < n ==>
              p[i].hue * n as real == i as real && p[i].saturation == 0.8 && p[i].value == 0.9
    ensures forall i :: 0 <= i < n ==> 0.0 <= p[i].hue < 1.0
    ensures forall i, j :: 0 <= i < j < n ==> p[i].hue < p[j].hue
  {
    var p := seq(n, i requires 0 <= i < n => Hsv(Hue(i, n), 0.8, 0.9));
    assert forall i, j :: 0 <= i < j < n ==> p[i].hue < p[j].hue by {
      forall i, j | 0 <= i < j < n ensures p[i].hue < p[j].hue {
        HueIncreases(i, j, n);
      }
    }
    p
  }

  /** The hue `i / n` of the i-th of n categories. */
  function Hue(i: nat, n: nat): (h: real)
    requires i < n
    ensures h * n as real == i as real
    ensures 0.0 <= h < 1.0
  {
    i as real / n as real
  }

  lemma HueIncreases(i: nat, j: nat, n: nat)
    requires i < j < n
    ensures Hue(i, n) < Hue(j, n)
  {
    var a, b, m := Hue(i, n), Hue(j, n), n as real;
    var d := b - a;
    assert d * m == (j - i) as real;
    assert d * m > 0.0 && m > 0.0;
  }

  /** The loop of main.py:129-135, appending one entry per index. */
  method GeneratePalette(n: nat) returns (colors: seq<Hsv>)
    ensures colors == Palette(n)
  {
    colors := [];
    for i := 0 to n
      invariant colors == Palette(n)[..i]
    {
      var h := Hue(i, n);
      colors := colors + [Hsv(h, 0.8, 0.9)];
    }
  }

  function Category(rec: Record, vt: VisualType): string
    requires vt.Categorical()
  {
    if vt == Company then rec.company else rec.activityType
  }

  /** Some row of `rows` belongs to category `c`. */
  predicate HasCategory(rows: seq<Record>, vt: VisualType, c: string)
    requires vt.Categorical()
  {
    exists i :: 0 <= i < |rows| && Category(rows[i], vt) == c
  }

  /** `sorted(schedule[column].unique())` */
  function Categories(rows: seq<Record>, vt: VisualType): (cats: seq<string>)
    requires vt.Categorical()
    ensures Sorted(cats) && NoDuplicates(cats)
    ensures forall c :: c in cats <==> HasCategory(rows, vt, c)
  {
    var column := seq(|rows|, i requires 0 <= i < |rows| => Category(rows[i], vt));
    assert forall c :: c in column <==> HasCategory(rows, vt, c) by {
      forall c ensures c in column <==> HasCategory(rows, vt, c) {
        if HasCategory(rows, vt, c) {
          var i :| 0 <= i < |rows| && Category(rows[i], vt) == c;
          assert column[i] == c;
        }
      }
    }
    var unique := Dedup(column);
    var cats := SortStrings(unique);
    NoDuplicatesPermutation(unique, cats);
    assert forall c :: c in cats <==> c in multiset(unique);
    cats
  }

  /** The comprehension of main.py:139-142: a later equal key would overwrite an earlier one. */
  function ColorDictionary(cats: seq<string>, palette: seq<Hsv>): (d: map<string, Hsv>)
    requires |palette| == |cats|
    ensures forall c :: c in d <==> c in cats
    ensures forall i :: 0 <= i < |cats| && LastOccurrence(cats, i) ==> d[cats[i]] == palette[i]
  {
    var d := map c | c in cats :: palette[LastIndexOf(cats, c)];
    assert forall i :: 0 <= i < |cats| && LastOccurrence(cats, i) ==> LastIndexOf(cats, cats[i]) == i;
    d
  }

  /** The last position holding `x`. */
  function LastIndexOf(s: seq<string>, x: string): (k: nat)
    requires x in s
    ensures k < |s| && s[k] == x
    ensures forall j :: k < j < |s| ==> s[j] != x
    decreases |s|
  {
    var n := |s| - 1;
    if s[n] == x then n
    else
      assert x in s[..n] by {
        var i :| 0 <= i < |s| && s[i] == x;
        assert s[..n][i] == x;
      }
      LastIndexOf(s[..n], x)
  }

  /** No later position of `s` repeats `s[i]`. */
  predicate LastOccurrence(s: seq<string>, i: nat)
    requires i < |s|
  {
    forall j :: i < j < |s| ==> s[j] != s[i]
  }

  /** The colour map a categorical run uses. */
  function CategoryColors(rows: seq<Record>, vt: VisualType): map<string, Hsv>
    requires vt.Categorical()
  {
    var cats := Categories(rows, vt);
    ColorDictionary(cats, Palette(|cats|))
  }

  /** Each row's colour is the palette entry at its category's index among the sorted categories. */
  lemma CategoryColorOfRow(rows: seq<Record>, vt: VisualType, k: nat)
    requires vt.Categorical() && k < |rows|
    ensures var cats := Categories(rows, vt);
            var c := Category(rows[k], vt);
            && c in cats
            && c in CategoryColors(rows, vt)
            && CategoryColors(rows, vt)[c] == Palette(|cats|)[IndexOf(cats, c)]
            && CategoryColors(rows, vt)[c].hue == Hue(IndexOf(cats, c), |cats|)
  {
    var cats := Categories(rows, vt);
    var c := Category(rows[k], vt);
    assert c in cats;
    var i := IndexOf(cats, c);
    assert LastOccurrence(cats, i);
  }

  /** The colour map depends only on the set of categories, not on which rows carry them or their order. */
  lemma CategoryColorsDependOnlyOnCategorySet(rows1: seq<Record>, rows2: seq<Record>, vt: VisualType)
    requires vt.Categorical()
    requires forall c :: HasCategory(rows1, vt, c) <==> HasCategory(rows2, vt, c)
    ensures Categories(rows1, vt) == Categories(rows2, vt)
    ensures CategoryColors(rows1, vt) == CategoryColors(rows2, vt)
  {
    var c1, c2 := Categories(rows1, vt), Categories(rows2, vt);
    DistinctSameElements(c1, c2);
    SortedUnique(c1, c2);
  }

  /** The two-company example: Acme takes hue 0 and Beta hue 1/2, whichever row comes first. */
  lemma TwoCompaniesExample(acme: Record, beta: Record)
    requires acme.company == "Acme" && beta.company == "Beta"
    ensures CategoryColors([beta, acme], Company) == map["Acme" := Hsv(0.0, 0.8, 0.9), "Beta" := Hsv(0.5, 0.8, 0.9)]
    ensures CategoryColors([acme, beta], Company) == CategoryColors([beta, acme], Company)
  {
    TwoCompaniesSorted(acme, beta);
    TwoCategoryColors([beta, acme]);
    SwapTwoRows(acme, beta, Company);
    CategoryColorsDependOnlyOnCategorySet([acme, beta], [beta, acme], Company);
  }

  lemma TwoCategoryColors(rows: seq<Record>)
    requires Categories(rows, Company) == ["Acme", "Beta"]
    ensures CategoryColors(rows, Company) == map["Acme" := Hsv(0.0, 0.8, 0.9), "Beta" := Hsv(0.5, 0.8, 0.9)]
  {
    TwoColorDictionary();
  }

  /** The dictionary of the sorted categories Acme, Beta. */
  lemma TwoColorDictionary()
    ensures ColorDictionary(["Acme", "Beta"], Palette(2)) == map["Acme" := Hsv(0.0, 0.8, 0.9), "Beta" := Hsv(0.5, 0.8, 0.9)]
  {
    PaletteOfTwo();
    var cats := ["Acme", "Beta"];
    assert cats[0] != cats[1] by { assert cats[0][0] != cats[1][0]; }
    assert LastOccurrence(cats, 0) && LastOccurrence(cats, 1);
    var d, e := ColorDictionary(cats, Palette(2)), map["Acme" := Hsv(0.0, 0.8, 0.9), "Beta" := Hsv(0.5, 0.8, 0.9)];
    assert d.Keys == e.Keys;
    assert d[cats[0]] == e[cats[0]] && d[cats[1]] == e[cats[1]];
  }

  /** Two categories split the hue circle at 0 and 1/2. */
  lemma PaletteOfTwo()
    ensures Palette(2) == [Hsv(0.0, 0.8, 0.9), Hsv(0.5, 0.8, 0.9)]
  {
    var p := Palette(2);
    assert p[0].hue * 2.0 == 0.0 && p[1].hue * 2.0 == 1.0;
  }

  lemma TwoCompaniesSorted(acme: Record, beta: Record)
    requires acme.company == "Acme" && beta.company == "Beta"
    ensures Categories([beta, acme], Company) == ["Acme", "Beta"]
  {
    var cats, expected := Categories([beta, acme], Company), ["Acme", "Beta"];
    TwoCompaniesCategorySet(acme, beta);
    AcmeBeforeBeta();
    DistinctSameElements(cats, expected);
    SortedUnique(cats, expected);
  }

  /** Rows of Beta then Acme carry exactly the categories Acme and Beta. */
  lemma TwoCompaniesCategorySet(acme: Record, beta: Record)
    requires acme.company == "Acme" && beta.company == "Beta"
    ensures forall c :: HasCategory([beta, acme], Company, c) <==> c in ["Acme", "Beta"]
  {
    var rows := [beta, acme];
    assert HasCategory(rows, Company, "Beta") by { assert Category(rows[0], Company) == "Beta"; }
    assert HasCategory(rows, Company, "Acme") by { assert Category(rows[1], Company) == "Acme"; }
  }

  /** "Acme" sorts before "Beta", and they differ. */
  lemma AcmeBeforeBeta()
    ensures Sorted(["Acme", "Beta"]) && NoDuplicates(["Acme", "Beta"])
  {
    var s := ["Acme", "Beta"];
    assert s[0][0] < s[1][0];
    assert LessEq(s[0], s[1]);
  }

  lemma SwapTwoRows(a: Record, b: Record, vt: VisualType)
    requires vt.Categorical()
    ensures forall c :: HasCategory([a, b], vt, c) <==> HasCategory([b, a], vt, c)
  {
    forall c ensures HasCategory([a, b], vt, c) ==> HasCategory([b, a], vt, c) {
      if HasCategory([a, b], vt, c) {
        var i :| 0 <= i < 2 && Category([a, b][i], vt) == c;
        assert Category([b, a][1 - i], vt) == c;
      }
    }
    forall c ensures HasCategory([b, a], vt, c) ==> HasCategory([a, b], vt, c) {
      if HasCategory([b, a], vt, c) {
        var i :| 0 <= i < 2 && Category([b, a][i], vt) == c;
        assert Category([a, b][1 - i], vt) == c;
      }
    }
  }

  // ---------------------------------------------------------------------
  // chronology check (main.py:159-167)

  /** The first row whose End precedes its Start, as the error that names it. */
  function ChronologyCheck(rows: seq<Record>): (err: Option<CompileError>)
    ensures err.None? <==> forall i :: 0 <= i < |rows| ==> rows[i].start <= rows[i].end
    ensures err.Some? ==>
              exists k ::
                && 0 <= k < |rows|
                && rows[k].end < rows[k].start
                && err.value == EndBeforeStart(rows[k].activity, rows[k].start, rows[k].end)
                && forall j :: 0 <= j < k ==> rows[j].start <= rows[j].end
    decreases |rows|
  {
    if rows == [] then None
    else if rows[0].end < rows[0].start then
      Some(EndBeforeStart(rows[0].activity, rows[0].start, rows[0].end))
    else
      var err := ChronologyCheck(rows[1..]);
      assert err.Some? ==> exists k ::
                && 1 <= k < |rows|
                && rows[k].end < rows[k].start
                && err.value == EndBeforeStart(rows[k].activity, rows[k].start, rows[k].end)
                && forall j :: 0 <= j < k ==> rows[j].start <= rows[j].end by {
        if err.Some? {
          var k :| 0 <= k < |rows[1..]| && rows[1..][k].end < rows[1..][k].start
                && err.value == EndBeforeStart(rows[1..][k].activity, rows[1..][k].start, rows[1..][k].end)
                && forall j :: 0 <= j < k ==> rows[1..][j].start <= rows[1..][j].end;
          assert forall j :: 1 <= j < k + 1 ==> rows[j] == rows[1..][j - 1];
        }
      }
      err
  }

  /** The row loop of main.py:159-167. */
  method ValidateChronology(rows: seq<Record>) returns (err: Option<CompileError>)
    ensures err == ChronologyCheck(rows)
  {
    for i := 0 to |rows|
      invariant forall j :: 0 <= j < i ==> rows[j].start <= rows[j].end
    {
      if rows[i].end < rows[i].start {
        err := Some(EndBeforeStart(rows[i].activity, rows[i].start, rows[i].end));
        ghost var e := ChronologyCheck(rows);
        assert e.Some?;
        return;
      }
    }
    err := None;
  }

  // ---------------------------------------------------------------------
  // frame quantisation (main.py:170-178)

  function MinStart(rows: seq<Record>): (m: int)
    requires |rows| > 0
    ensures forall i :: 0 <= i < |rows| ==> m <= rows[i].start
    ensures exists i :: 0 <= i < |rows| && rows[i].start == m
    decreases |rows|
  {
    if |rows| == 1 then rows[0].start
    else
      var rest := MinStart(rows[1..]);
      assert forall i :: 1 <= i < |rows| ==> rows[i] == rows[1..][i - 1];
      if rows[0].start <= rest then rows[0].start else rest
  }

  datatype FrameSpan = FrameSpan(startFrame: int, endFrame: int)

  /** Shift of every time by the run's earliest Start, at one frame per schedule unit. */
  function Quantise(rows: seq<Record>): (spans: seq<FrameSpan>)
    ensures |spans| == |rows|
    ensures forall i :: 0 <= i < |rows| ==> spans[i].startFrame >= 0
    ensures |rows| > 0 ==> exists i :: 0 <= i < |rows| && spans[i].startFrame == 0
    ensures forall i :: 0 <= i < |rows| && rows[i].start <= rows[i].end ==>
              spans[i].startFrame <= spans[i].endFrame
  {
    if rows == [] then []
    else
      var origin := MinStart(rows);
      var spans := seq(|rows|, i requires 0 <= i < |rows| =>
        FrameSpan((rows[i].start - origin) * 1, (rows[i].end - origin) * 1));
      assert exists i :: 0 <= i < |rows| && spans[i].startFrame == 0 by {
        var k :| 0 <= k < |rows| && rows[k].start == origin;
        assert spans[k].startFrame == 0;
      }
      spans
  }

  /**
   * Shifting by one constant keeps the distance and hence the order between
   * any two times of the run.
   */
  lemma QuantiseKeepsOrder(rows: seq<Record>, i: nat, j: nat)
    requires i < |rows| && j < |rows|
    ensures Quantise(rows)[i].startFrame - Quantise(rows)[j].startFrame == rows[i].start - rows[j].start
    ensures Quantise(rows)[i].endFrame - Quantise(rows)[j].startFrame == rows[i].end - rows[j].start
    ensures Quantise(rows)[i].startFrame <= Quantise(rows)[j].startFrame <==> rows[i].start <= rows[j].start
    ensures Quantise(rows)[i].endFrame <= Quantise(rows)[j].endFrame <==> rows[i].end <= rows[j].end
    ensures Quantise(rows)[i].startFrame <= Quantise(rows)[j].endFrame <==> rows[i].start <= rows[j].end
  {
  }

  // ---------------------------------------------------------------------
  // one schedule (main.py:100-192)

  function RowColor(rec: Record, vt: VisualType, colors: map<string, Hsv>): Option<Hsv>
  {
    if vt.Categorical() && Category(rec, vt) in colors then Some(colors[Category(rec, vt)]) else None
  }

  /** What one schedule file turns into: the hand-off rows, or the chronology error. */
  function Compile(rows: seq<Record>, config: Config): Result<seq<Canonical>, CompileError>
  {
    var sel := SelectRows(rows, config.topWbs);
    match ChronologyCheck(sel)
    case Some(e) => Failure(e)
    case None => Success(Emit(sel, config.visualType))
  }

  /**
   * A schedule fails exactly when a selected row ends before it starts, with
   * the first such row's error; otherwise every selected row becomes one
   * hand-off row with its Activity and ordered, non-negative frames, its
   * times shifted so that the earliest Start is frame 0.
   */
  lemma CompileSpec(rows: seq<Record>, config: Config)
    ensures var sel := SelectRows(rows, config.topWbs);
            var r := Compile(rows, config);
            && (r.Failure? <==> exists i :: 0 <= i < |sel| && sel[i].end < sel[i].start)
            && (r.Failure? ==> r.error == ChronologyCheck(sel).value)
            && (r.Success? ==>
                  && |r.value| == |sel|
                  && (forall i :: 0 <= i < |sel| ==>
                        r.value[i].activity == sel[i].activity
                        && 0 <= r.value[i].startFrame <= r.value[i].endFrame)
                  && (forall i :: 0 <= i < |sel| ==>
                        r.value[i].startFrame == sel[i].start - MinStart(sel)
                        && r.value[i].endFrame == sel[i].end - MinStart(sel))
                  && (|sel| > 0 ==> exists i :: 0 <= i < |sel| && r.value[i].startFrame == 0))
  {
  }

  /** The colour map of a run: the category colours in a categorical run, otherwise empty. */
  function RunColors(sel: seq<Record>, vt: VisualType): map<string, Hsv>
  {
    if vt.Categorical() then CategoryColors(sel, vt) else map[]
  }

  /** The hand-off rows of a schedule that passed the chronology check (main.py:173-186). */
  function Emit(sel: seq<Record>, vt: VisualType): (out: seq<Canonical>)
    requires forall i :: 0 <= i < |sel| ==> sel[i].start <= sel[i].end
    ensures |out| == |sel|
    ensures forall i :: 0 <= i < |sel| ==>
              out[i].activity == sel[i].activity && 0 <= out[i].startFrame <= out[i].endFrame
    ensures |sel| > 0 ==> exists i :: 0 <= i < |sel| && out[i].startFrame == 0
    ensures forall i :: 0 <= i < |sel| ==>
              out[i].startFrame == sel[i].start - MinStart(sel) && out[i].endFrame == sel[i].end - MinStart(sel)
    ensures forall i :: 0 <= i < |sel| ==> out[i].color == RowColor(sel[i], vt, RunColors(sel, vt))
  {
    var spans := Quantise(sel);
    var colors := RunColors(sel, vt);
    var out := seq(|sel|, i requires 0 <= i < |sel| =>
      Canonical(sel[i].activity, spans[i].startFrame, spans[i].endFrame, RowColor(sel[i], vt, colors)));
    assert |sel| > 0 ==> exists i :: 0 <= i < |sel| && out[i].startFrame == 0 by {
      if |sel| > 0 {
        var k :| 0 <= k < |sel| && spans[k].startFrame == 0;
        assert out[k].startFrame == 0;
      }
    }
    out
  }

  /** In a categorical run every hand-off row carries its category's palette colour; otherwise none. */
  lemma CompileColors(rows: seq<Record>, config: Config, k: nat)
    requires Compile(rows, config).Success?
    requires k < |Compile(rows, config).value|
    ensures var sel := SelectRows(rows, config.topWbs);
            var out := Compile(rows, config).value;
            && (!config.visualType.Categorical() ==> out[k].color == None)
            && (config.visualType.Categorical() ==>
                  var cats := Categories(sel, config.visualType);
                  var c := Category(sel[k], config.visualType);
                  out[k].color == Some(Palette(|cats|)[IndexOf(cats, c)]))
  {
    if config.visualType.Categorical() {
      CategoryColorOfRow(SelectRows(rows, config.topWbs), config.visualType, k);
    }
  }

  /** Reordering the schedule's rows never changes the colour a given row receives. */
  lemma CompileColorsIgnoreRowOrder(rows1: seq<Record>, rows2: seq<Record>, config: Config, i: nat, j: nat)
    requires multiset(rows1) == multiset(rows2)
    requires Compile(rows1, config).Success? && Compile(rows2, config).Success?
    requires i < |SelectRows(rows1, config.topWbs)| && j < |SelectRows(rows2, config.topWbs)|
    requires SelectRows(rows1, config.topWbs)[i] == SelectRows(rows2, config.topWbs)[j]
    ensures Compile(rows1, config).value[i].color == Compile(rows2, config).value[j].color
  {
    var vt := config.visualType;
    if vt.Categorical() {
      var s1, s2 := SelectRows(rows1, config.topWbs), SelectRows(rows2, config.topWbs);
      SelectRowsIgnoresOrder(rows1, rows2, config.topWbs);
      SameRowsSameCategories(s1, s2, vt);
      SameRowsSameCategories(s2, s1, vt);
      CategoryColorsDependOnlyOnCategorySet(s1, s2, vt);
      CompileRowColor(rows1, config, i);
      CompileRowColor(rows2, config, j);
    }
  }

  lemma SameRowsSameCategories(s1: seq<Record>, s2: seq<Record>, vt: VisualType)
    requires vt.Categorical()
    requires forall x :: x in s1 ==> x in s2
    ensures forall c :: HasCategory(s1, vt, c) ==> HasCategory(s2, vt, c)
  {
    forall c | HasCategory(s1, vt, c) ensures HasCategory(s2, vt, c) {
      var a :| 0 <= a < |s1| && Category(s1[a], vt) == c;
      assert s1[a] in s2;
      var b :| 0 <= b < |s2| && s2[b] == s1[a];
      assert Category(s2[b], vt) == c;
    }
  }

  lemma CompileRowColor(rows: seq<Record>, config: Config, k: nat)
    requires config.visualType.Categorical()
    requires Compile(rows, config).Success?
    requires k < |SelectRows(rows, config.topWbs)|
    ensures var sel := SelectRows(rows, config.topWbs);
            Compile(rows, config).value[k].color == RowColor(sel[k], config.visualType, CategoryColors(sel, config.visualType))
  {
    CompileIsEmit(rows, config);
  }

  /** A schedule that compiles passed the chronology check and yields the hand-off rows of its selected rows. */
  lemma CompileIsEmit(rows: seq<Record>, config: Config)
    requires Compile(rows, config).Success?
    ensures var sel := SelectRows(rows, config.topWbs);
            && ChronologyCheck(sel).None?
            && Compile(rows, config).value == Emit(sel, config.visualType)
  {
  }

  /** The statement sequence of main.py:100-192 for one schedule. */
  method CompileSchedule(rows: seq<Record>, config: Config) returns (r: Result<seq<Canonical>, CompileError>)
    ensures r == Compile(rows, config)
  {
    var schedule := rows;
    if config.topWbs != "" {
      schedule := FilterWbs(schedule, config.topWbs);
      schedule := RerootAll(schedule, config.topWbs);
    }
    var colors: map<string, Hsv> := map[];
    if config.visualType.Categorical() {
      var cats := Categories(schedule, config.visualType);
      var palette := GeneratePalette(|cats|);
      colors := ColorDictionary(cats, palette);
    }
    var err := ValidateChronology(schedule);
    if err.Some? {
      return Failure(err.value);
    }
    var spans := Quantise(schedule);
    r := Success(seq(|schedule|, i requires 0 <= i < |schedule| =>
      Canonical(schedule[i].activity, spans[i].startFrame, spans[i].endFrame,
                RowColor(schedule[i], config.visualType, colors))));
    assert colors == RunColors(schedule, config.visualType);
    assert r.value == Emit(schedule, config.visualType);
  }

  /** The loop over schedule files (main.py:92): files are compiled in order and the first error ends the run. */
  method CompileBatch(schedules: seq<seq<Record>>, config: Config)
    returns (outputs: seq<seq<Canonical>>, failure: Option<CompileError>)
    ensures |outputs| <= |schedules|
    ensures forall i :: 0 <= i < |outputs| ==> Compile(schedules[i], config) == Success(outputs[i])
    ensures failure.None? <==> |outputs| == |schedules|
    ensures failure.Some? ==> Compile(schedules[|outputs|], config) == Failure(failure.value)
  {
    outputs := [];
    var i := 0;
    while i < |schedules|
      invariant i == |outputs|
      invariant CompiledPrefix(schedules, config, outputs)
    {
      var r := CompileSchedule(schedules[i], config);
      if r.Failure? {
        failure := Some(r.error);
        return;
      }
      CompiledPrefixStep(schedules, config, outputs, r.value);
      outputs := outputs + [r.value];
      i := i + 1;
    }
    failure := None;
  }

  /** The first `|outputs|` schedules compiled, in order, to `outputs`. */
  ghost predicate CompiledPrefix(schedules: seq<seq<Record>>, config: Config, outputs: seq<seq<Canonical>>)
  {
    && |outputs| <= |schedules|
    && forall k :: 0 <= k < |outputs| ==> Compile(schedules[k], config) == Success(outputs[k])
  }

  lemma CompiledPrefixStep(schedules: seq<seq<Record>>, config: Config, outputs: seq<seq<Canonical>>, out: seq<Canonical>)
    requires CompiledPrefix(schedules, config, outputs) && |outputs| < |schedules|
    requires Compile(schedules[|outputs|], config) == Success(out)
    ensures CompiledPrefix(schedules, config, outputs + [out])
  {
    var next := outputs + [out];
    forall k | 0 <= k < |next| ensures Compile(schedules[k], config) == Success(next[k]) {
      if k < |outputs| {
        assert next[k] == outputs[k];
      }
    }
  }

  // ---------------------------------------------------------------------
  // legacy concat manifest (main.py:287-318)

  /** The compiler's own frames-per-unit constant (main.py:171). */
  const CompilerFps: int := 1

  /** `sorted(f for f in listing if f.endswith(".png"))` */
  function PngFrames(entries: seq<string>): (frames: seq<string>)
    ensures Sorted(frames)
    ensures multiset(frames) == multiset(FilterPng(entries))
    ensures forall f :: f in frames <==> f in entries && EndsWith(f, ".png")
  {
    var found := FilterPng(entries);
    var frames := SortStrings(found);
    assert forall f :: f in frames <==> f in multiset(found);
    frames
  }

  function FilterPng(entries: seq<string>): (r: seq<string>)
    ensures forall f :: f in r <==> f in entries && EndsWith(f, ".png")
    decreases |entries|
  {
    if entries == [] then []
    else
      assert forall f :: f in entries <==> f == entries[0] || f in entries[1..];
      (if EndsWith(entries[0], ".png") then [entries[0]] else []) + FilterPng(entries[1..])
  }

  /** Each `.png` entry is kept once per occurrence in the listing, every other entry never. */
  lemma {:induction false} FilterPngCount(entries: seq<string>)
    ensures forall f :: multiset(FilterPng(entries))[f] == if EndsWith(f, ".png") then multiset(entries)[f] else 0
    decreases |entries|
  {
    if entries != [] {
      assert entries == [entries[0]] + entries[1..];
      FilterPngCount(entries[1..]);
    }
  }

  datatype ManifestError = NoFrames

  /**
   * The writing loop of main.py:313-318: every frame with the constant
   * duration 1/fps, then the last frame once more; `frames[-1]` fails on
   * an empty list.
   */
  method WriteLegacyManifest(framesDir: string, frames: seq<string>)
    returns (r: Result<seq<ManifestLine>, ManifestError>)
    ensures r.Failure? <==> frames == []
    ensures r.Success? ==>
              var lines := r.value;
              var k := |frames|;
              && |lines| == 2 * k + 1
              && (forall i :: 0 <= i < k ==>
                    lines[2 * i] == FileLine(JoinPath(framesDir, frames[i]))
                    && lines[2 * i + 1] == DurationLine(1.0 / CompilerFps as real))
              && lines[2 * k] == FileLine(JoinPath(framesDir, frames[k - 1]))
              && Durations(lines) == seq(k, _ => 1.0)
  {
    var lines: seq<ManifestLine> := [];
    for i := 0 to |frames|
      invariant |lines| == 2 * i
      invariant forall j :: 0 <= j < i ==>
                  lines[2 * j] == FileLine(JoinPath(framesDir, frames[j]))
                  && lines[2 * j + 1] == DurationLine(1.0 / CompilerFps as real)
      invariant Durations(lines) == seq(i, _ => 1.0)
    {
      var step := [FileLine(JoinPath(framesDir, frames[i])), DurationLine(1.0 / CompilerFps as real)];
      DurationsAppend(lines, step);
      assert Durations(step[1..]) == [1.0] + Durations(step[1..][1..]);
      assert Durations(step) == [1.0];
      lines := lines + step;
    }
    if frames == [] {
      return Failure(NoFrames);
    }
    var last := [FileLine(JoinPath(framesDir, frames[|frames| - 1]))];
    DurationsAppend(lines, last);
    assert Durations(last) == [];
    lines := lines + last;
    r := Success(lines);
  }
}
