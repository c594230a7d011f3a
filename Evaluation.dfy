/**
 * Retrieval-quality evaluation: canonical image names, the ground-truth CSV
 * (building label -> set of image names), the precision recorded at each relevant hit of a ranked
 * list, their mean (average precision), and the per-query score.
 */
module Evaluation {
  import opened Results
  import opened Text
  import opened Lex
  import opened Numeric

  type GroundTruth = map<string, set<string>>

  // ---------------------------------------------------------------------------------
  // Canonical image names
  // ---------------------------------------------------------------------------------

  /** Path separators (the program is built for Windows, where both are accepted). */
  predicate IsSeparator(c: char) {
    c == '/' || c == '\\'
  }

  /** `s` holds no path separator. */
  predicate NoSeparator(s: string) {
    '/' !in s && '\\' !in s
  }

  /** The last component of `path`: the text after its last separator. */
  function FileName(path: string): (f: string)
    ensures |f| <= |path| && f == path[|path| - |f|..]
    ensures NoSeparator(f)
    ensures |f| < |path| ==> IsSeparator(path[|path| - |f| - 1])
  {
    if path == [] || IsSeparator(path[|path| - 1]) then []
    else FileName(path[..|path| - 1]) + [path[|path| - 1]]
  }

  /** The index of the last '.' of `f`, or |f| when it holds none. */
  function LastDot(f: string): (k: nat)
    ensures k <= |f|
    ensures k < |f| ==> f[k] == '.' && '.' !in f[k + 1..]
    ensures k == |f| ==> '.' !in f
  {
    if f == [] then 0
    else if f[|f| - 1] == '.' then |f| - 1
    else
      var k := LastDot(f[..|f| - 1]);
      if k == |f| - 1 then |f|
      else (assert f[k + 1..] == f[..|f| - 1][k + 1..] + [f[|f| - 1]]; k)
  }

  /** Cutting a name cannot introduce a separator. */
  lemma SliceNoSeparator(f: string, i: nat, j: nat)
    requires i <= j <= |f|
    ensures NoSeparator(f) ==> NoSeparator(f[i..j])
  {
    assert f == f[..i] + f[i..j] + f[j..];
  }

  /**
   * `path::stem` of a file name: the name without its last extension. A name whose only
   * dot is its first character (".hidden") and the names "." and ".." are kept whole.
   */
  function Stem(f: string): (s: string)
    ensures |s| <= |f| && s == f[..|s|]
    ensures NoSeparator(f) ==> NoSeparator(s)
  {
    var k := LastDot(f);
    if f == ".." || k == |f| || k == 0 then f
    else
      SliceNoSeparator(f, 0, k);
      f[..k]
  }

  /** The number of leading '0' characters of `s`. */
  function LeadingZeros(s: string): (n: nat)
    ensures n <= |s| && (forall k :: 0 <= k < n ==> s[k] == '0')
    ensures n < |s| ==> s[n] != '0'
  {
    if s != [] && s[0] == '0' then 1 + LeadingZeros(s[1..]) else 0
  }

  /** `s` without its leading zeros: a suffix that follows a run of zeros and does not start with '0'. */
  function DropLeadingZeros(s: string): (r: string)
    ensures |r| <= |s| && r == s[|s| - |r|..]
    ensures forall k :: 0 <= k < |s| - |r| ==> s[k] == '0'
    ensures r == [] || r[0] != '0'
    ensures NoSeparator(s) ==> NoSeparator(r)
  {
    var n := LeadingZeros(s);
    assert |s| - |s[n..]| == n;
    assert n < |s| ==> s[n..][0] == s[n];
    SliceNoSeparator(s, n, |s|);
    s[n..]
  }

  /**
   * `get_image_name`: the stem of the path's last component with every leading '0'
   * removed. The result is what remains of the stem after a run of zeros, it never starts
   * with '0' and holds no separator; a stem of zeros only becomes "".
   */
  function GetImageName(path: string): (name: string)
    ensures var stem := Stem(FileName(path));
      |name| <= |stem| && name == stem[|stem| - |name|..]
      && (forall k :: 0 <= k < |stem| - |name| ==> stem[k] == '0')
    ensures name == [] || name[0] != '0'
    ensures NoSeparator(name)
  {
    DropLeadingZeros(Stem(FileName(path)))
  }

  lemma {:induction false} FileNameAfterSeparator(dir: string, f: string)
    requires |dir| > 0 && IsSeparator(dir[|dir| - 1])
    requires NoSeparator(f)
    ensures FileName(dir + f) == f
    decreases |f|
  {
    if f != [] {
      var init := f[..|f| - 1];
      assert (dir + f)[..|dir + f| - 1] == dir + init;
      FileNameAfterSeparator(dir, init);
      assert init + [f[|f| - 1]] == f;
    } else {
      assert dir + f == dir;
    }
  }

  /** No dot of `f` lies after its last dot. */
  lemma {:induction false} LastDotAfter(f: string, j: nat)
    requires j < |f| && f[j] == '.'
    ensures j <= LastDot(f) < |f|
    decreases |f|
  {
    if f[|f| - 1] != '.' {
      LastDotAfter(f[..|f| - 1], j);
    }
  }

  /** Characters without a dot after the last dot leave it the last dot. */
  lemma {:induction false} LastDotKept(g: string, ext: string)
    requires LastDot(g) < |g| && '.' !in ext
    ensures LastDot(g + ext) == LastDot(g)
    decreases |ext|
  {
    if ext == [] {
      assert g + ext == g;
    } else {
      var init := ext[..|ext| - 1];
      LastDotKept(g, init);
      assert (g + ext)[..|g + ext| - 1] == g + init;
      assert (g + ext)[|g + ext| - 1] == ext[|ext| - 1];
    }
  }

  lemma LastDotOf(base: string, ext: string)
    requires '.' !in ext
    ensures LastDot(base + "." + ext) == |base|
  {
    var g := base + ".";
    assert g[|g| - 1] == '.';
    LastDotKept(g, ext);
  }

  /** The stem of "base.ext", for an extension without dots and a base other than "" and ".". */
  lemma StemOf(base: string, ext: string)
    requires base != [] && base != "."
    requires '.' !in ext
    ensures Stem(base + "." + ext) == base
  {
    var f := base + "." + ext;
    LastDotOf(base, ext);
    assert f[..|base|] == base;
    assert |f| == 2 ==> base == f[..1];
  }

  /**
   * The canonical name of "dir/base.ext", for a directory ending in a separator, a base
   * name without separators and an extension without dots or separators: the base name
   * without its leading zeros.
   */
  lemma CanonicalName(dir: string, base: string, ext: string)
    requires |dir| > 0 && IsSeparator(dir[|dir| - 1])
    requires base != [] && base != "."
    requires NoSeparator(base)
    requires '.' !in ext && NoSeparator(ext)
    ensures GetImageName(dir + (base + "." + ext)) == DropLeadingZeros(base)
  {
    var f := base + "." + ext;
    assert NoSeparator(f);
    FileNameAfterSeparator(dir, f);
    StemOf(base, ext);
  }

  /** A run of n zeros. */
  function Zeros(n: nat): (z: string)
    ensures |z| == n && forall k :: 0 <= k < n ==> z[k] == '0'
  {
    seq(n, _ => '0')
  }

  /** Leading zeros in front of a text that does not start with '0' are exactly what is dropped. */
  lemma {:induction false} DropZerosPrefix(n: nat, t: string)
    requires t == [] || t[0] != '0'
    ensures LeadingZeros(Zeros(n) + t) == n
    ensures DropLeadingZeros(Zeros(n) + t) == t
    decreases n
  {
    var s := Zeros(n) + t;
    if n > 0 {
      DropZerosPrefix(n - 1, t);
      assert s[1..] == Zeros(n - 1) + t;
    } else {
      assert s == t;
    }
    assert s[n..] == t;
  }

  /** A decimal number as written in a file name: digits only, the first one not '0'. */
  predicate Digits(t: string) {
    t != [] && t[0] != '0' && forall k :: 0 <= k < |t| ==> '0' <= t[k] <= '9'
  }

  /**
   * A numbered image: "dir/" followed by a zero-padded number and an extension
   * canonicalises to the number without its padding, "dataset/00042.jpg" to "42".
   */
  lemma NumberedImageName(dir: string, n: nat, digits: string, ext: string)
    requires |dir| > 0 && IsSeparator(dir[|dir| - 1])
    requires Digits(digits)
    requires '.' !in ext && NoSeparator(ext)
    ensures GetImageName(dir + (Zeros(n) + digits + "." + ext)) == digits
  {
    var base := Zeros(n) + digits;
    assert base[|base| - 1] == digits[|digits| - 1];
    assert NoSeparator(base) by {
      forall k | 0 <= k < |base| ensures !IsSeparator(base[k]) {
        if k >= n { assert base[k] == digits[k - n]; }
      }
    }
    CanonicalName(dir, base, ext);
    DropZerosPrefix(n, digits);
  }

  /** A file name whose stem is made of zeros only canonicalises to the empty name. */
  lemma ZerosImageName(dir: string, n: nat, ext: string)
    requires |dir| > 0 && IsSeparator(dir[|dir| - 1])
    requires n >= 1 && '.' !in ext && NoSeparator(ext)
    ensures GetImageName(dir + (Zeros(n) + "." + ext)) == ""
  {
    assert Zeros(n)[0] == '0';
    CanonicalName(dir, Zeros(n), ext);
    DropZerosPrefix(n, "");
    assert Zeros(n) + "" == Zeros(n);
  }

  // ---------------------------------------------------------------------------------
  // Ground truth
  // ---------------------------------------------------------------------------------

  /** Every cell trimmed. */
  function TrimAll(cells: seq<string>): (row: seq<string>)
    ensures |row| == |cells| && forall k :: 0 <= k < |cells| ==> row[k] == Trim(cells[k])
  {
    if cells == [] then [] else TrimAll(cells[..|cells| - 1]) + [Trim(cells[|cells| - 1])]
  }

  /** The trimmed comma-separated cells of one CSV line. */
  function Row(line: string): (row: seq<string>)
  {
    TrimAll(Tokens(line, ','))
  }

  /** One data line: with at least two cells, cell 0 joins the set of the building named by cell 1. */
  function AddRow(gt: GroundTruth, line: string): GroundTruth
  {
    var row := Row(line);
    if |row| > 1 then
      gt[row[1] := (if row[1] in gt then gt[row[1]] else {}) + {row[0]}]
    else gt
  }

  /** The ground truth after the data lines `lines`, in order. */
  function Collect(gt: GroundTruth, lines: seq<string>): GroundTruth
    decreases |lines|
  {
    if lines == [] then gt else AddRow(Collect(gt, lines[..|lines| - 1]), lines[|lines| - 1])
  }

  /** The ground truth of a CSV file: its first line is a header, the rest are data. */
  function GroundTruthOf(lines: seq<string>): GroundTruth
  {
    if lines == [] then map[] else Collect(map[], lines[1..])
  }

  /** CSV line `line` has at least two cells, cell 0 being `name` and cell 1 `building`. */
  predicate RowPairs(line: string, building: string, name: string)
  {
    var row := Row(line);
    |row| > 1 && row[1] == building && row[0] == name
  }

  /** Some line of `lines` pairs `name` with `building`. */
  ghost predicate Stated(lines: seq<string>, building: string, name: string)
  {
    exists line :: line in lines && RowPairs(line, building, name)
  }

  lemma AddRowMembers(gt: GroundTruth, line: string, building: string, name: string)
    ensures var gt' := AddRow(gt, line);
      && ((building in gt' && name in gt'[building])
          <==> (building in gt && name in gt[building]) || RowPairs(line, building, name))
      && (building in gt' && gt'[building] == {} ==> building in gt && gt[building] == {})
  {
  }

  lemma StatedSnoc(lines: seq<string>, building: string, name: string)
    requires lines != []
    ensures Stated(lines, building, name)
      <==> Stated(lines[..|lines| - 1], building, name) || RowPairs(lines[|lines| - 1], building, name)
  {
    assert lines == lines[..|lines| - 1] + [lines[|lines| - 1]];
  }

  lemma {:induction false} CollectMembers(lines: seq<string>, building: string, name: string)
    ensures var gt := Collect(map[], lines);
      && (building in gt ==> gt[building] != {})
      && ((building in gt && name in gt[building]) <==> Stated(lines, building, name))
    decreases |lines|
  {
    if lines != [] {
      var init := lines[..|lines| - 1];
      CollectMembers(init, building, name);
      AddRowMembers(Collect(map[], init), lines[|lines| - 1], building, name);
      StatedSnoc(lines, building, name);
    }
  }

  /**
   * The loaded ground truth holds exactly the pairs the data lines state: image `name` is
   * in the set of `building` iff some line after the header has at least two cells, cell 0
   * being `name` and cell 1 being `building` (further cells ignored); and no building has
   * an empty set.
   */
  lemma GroundTruthMembers(lines: seq<string>, building: string, name: string)
    ensures var gt := GroundTruthOf(lines);
      && (building in gt ==> gt[building] != {})
      && ((building in gt && name in gt[building])
          <==> lines != [] && Stated(lines[1..], building, name))
  {
    if lines != [] {
      CollectMembers(lines[1..], building, name);
    }
  }

  /** The trimmed cells of one line: the inner getline loop of `load_csv`. */
  method ParseRow(line: string) returns (row: seq<string>)
    ensures row == Row(line)
  {
    var cells := Split(line, ',');
    row := [];
    var k := 0;
    while k < |cells|
      invariant 0 <= k <= |cells|
      invariant row == TrimAll(cells[..k])
    {
      assert cells[..k + 1][..k] == cells[..k];
      row := row + [Trim(cells[k])];
      k := k + 1;
    }
    assert cells[..k] == cells;
  }

  /** The body of the line loop of `load_csv`: a line with at least two cells records its pair. */
  method RecordLine(gt: GroundTruth, line: string) returns (gt': GroundTruth)
    ensures gt' == AddRow(gt, line)
  {
    gt' := gt;
    var row := ParseRow(line);
    if |row| > 1 {
      var pictureName, building := row[0], row[1];
      var pictures := if building in gt' then gt'[building] else {};
      gt' := gt'[building := pictures + {pictureName}];
    }
  }

  /**
   * `load_csv`: `file` holds the lines of the CSV file, or None when it cannot be opened
   * (the result is then empty). The first line is a header; every later line is split on
   * ',' with each cell trimmed.
   */
  method LoadCsv(file: Option<seq<string>>) returns (gt: GroundTruth)
    ensures file.None? ==> gt == map[]
    ensures file.Some? ==> gt == GroundTruthOf(file.value)
  {
    gt := map[];
    if file.None? || file.value == [] {
      return;
    }
    var data := file.value[1..];
    var i := 0;
    assert data[..i] == [];
    while i < |data|
      invariant 0 <= i <= |data|
      invariant gt == Collect(map[], data[..i])
    {
      assert data[..i + 1][..i] == data[..i];
      gt := RecordLine(gt, data[i]);
      i := i + 1;
    }
    assert data[..i] == data;
  }

  // ---------------------------------------------------------------------------------
  // Precision at each relevant hit and average precision
  // ---------------------------------------------------------------------------------

  /** The number of positions of `retrieved` whose name is relevant. */
  function Hits(retrieved: seq<string>, relevant: set<string>): nat
    decreases |retrieved|
  {
    if retrieved == [] then 0
    else
      var last := if retrieved[|retrieved| - 1] in relevant then 1 else 0;
      Hits(retrieved[..|retrieved| - 1], relevant) + last
  }

  /**
   * `calculate_precision_at_k`: one entry per relevant position of the ranked list, the
   * j-th entry (from 1) being j / |relevant|: the number of relevant names retrieved so far
   * over the number of relevant names.
   */
  method CalculatePrecisionAtK(retrieved: seq<string>, relevant: set<string>) returns (precisions: seq<real>)
    ensures |precisions| == Hits(retrieved, relevant)
    ensures |precisions| > 0 ==> |relevant| > 0
    ensures forall j :: 0 <= j < |precisions| ==> precisions[j] == (j + 1) as real / |relevant| as real
  {
    precisions := [];
    var numRelevant := |relevant|;
    var correct := 0;
    var k := 0;
    while k < |retrieved|
      invariant 0 <= k <= |retrieved|
      invariant correct == |precisions| == Hits(retrieved[..k], relevant)
      invariant |precisions| > 0 ==> numRelevant > 0
      invariant forall j :: 0 <= j < |precisions| ==> precisions[j] == (j + 1) as real / numRelevant as real
    {
      assert retrieved[..k + 1][..k] == retrieved[..k];
      if retrieved[k] in relevant {
        correct := correct + 1;
        precisions := precisions + [correct as real / numRelevant as real];
      }
      k := k + 1;
    }
    assert retrieved[..k] == retrieved;
  }

  /** The arithmetic mean of `xs`, and 0 for the empty list. */
  function Mean(xs: seq<real>): real
  {
    if xs == [] then 0.0 else Sum(xs) / |xs| as real
  }

  /** `calculate_ap`: 0 for no recorded precision, otherwise their arithmetic mean. */
  method CalculateAp(precisions: seq<real>) returns (ap: real)
    ensures ap == Mean(precisions)
  {
    if precisions == [] {
      return 0.0;
    }
    var sum := 0.0;
    var i := 0;
    while i < |precisions|
      invariant 0 <= i <= |precisions|
      invariant sum == Sum(precisions[..i])
    {
      assert precisions[..i + 1][..i] == precisions[..i];
      sum := sum + precisions[i];
      i := i + 1;
    }
    assert precisions[..i] == precisions;
    ap := sum / |precisions| as real;
  }

  /** The precision list of m hits against r relevant names: 1/r, 2/r, ..., m/r. */
  function PrecisionList(m: nat, r: nat): (ps: seq<real>)
    requires m == 0 || r > 0
    ensures |ps| == m
  {
    seq(m, j requires 0 <= j < m => (j + 1) as real / r as real)
  }

  lemma {:induction false} PrecisionListSum(m: nat, r: nat)
    requires r > 0
    ensures Sum(PrecisionList(m, r)) == (m * (m + 1)) as real / (2 * r) as real
  {
    if m > 0 {
      PrecisionListSum(m - 1, r);
      assert PrecisionList(m, r)[..m - 1] == PrecisionList(m - 1, r);
      var a := ((m - 1) * m) as real;
      var rr := r as real;
      assert ((m - 1) * m) as real / (2 * r) as real + m as real / rr
          == (m * (m + 1)) as real / (2 * r) as real by {
        assert (m * (m + 1)) as real == a + 2.0 * m as real;
        assert (2 * r) as real == 2.0 * rr;
      }
    }
  }

  /**
   * Average precision in closed form: with m >= 1 hits and r relevant names the entries
   * are 1/r, ..., m/r, whose mean is (m + 1) / (2r).
   */
  lemma AveragePrecisionClosedForm(m: nat, r: nat)
    requires m >= 1 && r >= 1
    ensures Mean(PrecisionList(m, r)) == (m + 1) as real / (2 * r) as real
  {
    PrecisionListSum(m, r);
    var mr := m as real;
    assert (m * (m + 1)) as real == mr * (m + 1) as real;
    assert (m * (m + 1)) as real / (2 * r) as real / mr == (m + 1) as real / (2 * r) as real;
  }

  /** The names of `retrieved` that are relevant, as a set. */
  function RelevantRetrieved(retrieved: seq<string>, relevant: set<string>): set<string>
  {
    set k | 0 <= k < |retrieved| && retrieved[k] in relevant :: retrieved[k]
  }

  predicate Distinct(xs: seq<string>) {
    forall i, j :: 0 <= i < j < |xs| ==> xs[i] != xs[j]
  }

  lemma {:induction false} HitsDistinct(retrieved: seq<string>, relevant: set<string>)
    requires Distinct(retrieved)
    ensures Hits(retrieved, relevant) == |RelevantRetrieved(retrieved, relevant)|
    decreases |retrieved|
  {
    if retrieved != [] {
      var n := |retrieved|;
      var init := retrieved[..n - 1];
      HitsDistinct(init, relevant);
      var x := retrieved[n - 1];
      RelevantRetrievedSnoc(retrieved, relevant);
      assert x !in RelevantRetrieved(init, relevant) by {
        forall k | 0 <= k < n - 1 ensures init[k] != x {
          assert init[k] == retrieved[k];
        }
      }
    }
  }

  /** The relevant names of a list grow by its last name when that one is relevant. */
  lemma RelevantRetrievedSnoc(retrieved: seq<string>, relevant: set<string>)
    requires retrieved != []
    ensures var x := retrieved[|retrieved| - 1];
      RelevantRetrieved(retrieved, relevant)
        == RelevantRetrieved(retrieved[..|retrieved| - 1], relevant) + (if x in relevant then {x} else {})
  {
    var n := |retrieved|;
    var init := retrieved[..n - 1];
    var x := retrieved[n - 1];
    var lhs := RelevantRetrieved(retrieved, relevant);
    var rhs := RelevantRetrieved(init, relevant) + (if x in relevant then {x} else {});
    forall y | y in lhs ensures y in rhs {
      var k :| 0 <= k < n && retrieved[k] in relevant && retrieved[k] == y;
      if k < n - 1 {
        assert init[k] == y;
      }
    }
    forall y | y in rhs ensures y in lhs {
      if y in RelevantRetrieved(init, relevant) {
        var k :| 0 <= k < n - 1 && init[k] in relevant && init[k] == y;
        assert retrieved[k] == y;
      } else {
        assert retrieved[n - 1] == y;
      }
    }
  }

  lemma SubsetCardinality(a: set<string>, b: set<string>)
    requires a <= b
    ensures |a| <= |b|
  {
    assert b == a + (b - a);
  }

  /**
   * Without repeated names in the ranked list, there are at most |relevant| hits, so every
   * recorded precision lies in (0, 1].
   */
  lemma PrecisionsAtMostOne(retrieved: seq<string>, relevant: set<string>)
    requires Distinct(retrieved)
    ensures Hits(retrieved, relevant) <= |relevant|
    ensures forall j :: 0 <= j < Hits(retrieved, relevant) ==>
      0.0 < PrecisionList(Hits(retrieved, relevant), |relevant|)[j] <= 1.0
  {
    HitsDistinct(retrieved, relevant);
    SubsetCardinality(RelevantRetrieved(retrieved, relevant), relevant);
  }

  /** A repeated relevant name is counted at every occurrence, so entries can exceed 1. */
  lemma RepeatedHitsCounted()
    ensures Hits(["a", "a"], {"a"}) == 2
    ensures PrecisionList(2, 1)[1] == 2.0
  {
    assert ["a", "a"][..1] == ["a"];
    assert ["a"][..0] == [];
  }

  // ---------------------------------------------------------------------------------
  // Score of one query
  // ---------------------------------------------------------------------------------

  /** The buildings whose set holds `name`. */
  function Containing(gt: GroundTruth, name: string): set<string>
  {
    set building | building in gt.Keys && name in gt[building]
  }

  /** The first building, in ascending key order, whose set holds `name`; "" when none does. */
  function FirstBuilding(gt: GroundTruth, name: string): (building: string)
    ensures building == "" || (building in gt && name in gt[building])
  {
    var candidates := Containing(gt, name);
    if candidates == {} then "" else Least(candidates)
  }

  /** `building` is the first key, in ascending order, whose set holds `name`. */
  ghost predicate IsFirstLabel(gt: GroundTruth, name: string, building: string) {
    building in gt && name in gt[building]
    && forall other :: other in gt && name in gt[other] && other != building ==> Less(building, other)
  }

  /**
   * `FirstBuilding` is the ascending scan's first match: "" when no set holds the name,
   * and otherwise the one key that is first among those whose set holds it.
   */
  lemma FirstBuildingIsFirstLabel(gt: GroundTruth, name: string)
    ensures (forall building :: building in gt ==> name !in gt[building]) ==> FirstBuilding(gt, name) == ""
    ensures forall building :: IsFirstLabel(gt, name, building) ==> FirstBuilding(gt, name) == building
  {
    var candidates := Containing(gt, name);
    forall building | IsFirstLabel(gt, name, building)
      ensures FirstBuilding(gt, name) == building
    {
      assert IsLeast(building, candidates);
      LeastUnique(candidates);
    }
  }

  /** The closed form of average precision: 0 without hits, (m + 1) / (2r) for m >= 1 hits. */
  function AveragePrecision(m: nat, r: nat): (ap: real)
    requires m == 0 || r > 0
    ensures m <= r ==> 0.0 <= ap <= 1.0
  {
    if m == 0 then 0.0 else (m + 1) as real / (2 * r) as real
  }

  /**
   * `calculate_map` for one query: the building is the first key of the ground truth, in
   * ascending order, whose set holds the query's canonical name. With no such building, or
   * when that building is "", the score is 0; otherwise it is the average precision of the
   * ranked list against that building's whole set.
   */
  method CalculateMap(queryImage: string, retrieved: seq<string>, gt: GroundTruth) returns (score: real)
    ensures var building := FirstBuilding(gt, GetImageName(queryImage));
      score == if building == "" then 0.0
               else AveragePrecision(Hits(retrieved, gt[building]), |gt[building]|)
  {
    var queryName := GetImageName(queryImage);
    var buildingName := FindBuilding(gt, queryName);
    if buildingName == "" {
      return 0.0;
    }
    score := ScoreAgainst(retrieved, gt[buildingName]);
  }

  /** The scan of the ground truth's keys in ascending order for the first set holding `name`. */
  method FindBuilding(gt: GroundTruth, name: string) returns (buildingName: string)
    ensures buildingName == FirstBuilding(gt, name)
  {
    buildingName := "";
    var remaining := gt.Keys;
    while remaining != {}
      invariant Containing(gt, name) <= remaining <= gt.Keys
      invariant buildingName == ""
      decreases remaining
    {
      var key := Least(remaining);
      if name in gt[key] {
        buildingName := key;
        assert IsLeast(key, Containing(gt, name));
        LeastUnique(Containing(gt, name));
        return;
      }
      remaining := remaining - {key};
    }
  }

  /** The average precision of the ranked list against one building's set. */
  method ScoreAgainst(retrieved: seq<string>, relevantSet: set<string>) returns (score: real)
    ensures Hits(retrieved, relevantSet) == 0 || |relevantSet| > 0
    ensures score == AveragePrecision(Hits(retrieved, relevantSet), |relevantSet|)
  {
    var precisions := CalculatePrecisionAtK(retrieved, relevantSet);
    assert precisions == PrecisionList(|precisions|, |relevantSet|);
    score := CalculateAp(precisions);
    if |precisions| > 0 {
      AveragePrecisionClosedForm(|precisions|, |relevantSet|);
    }
  }
}
