/** How `tf_prediction` lays out what it writes: the recoil mask, the edges
    of the written histograms (a `np.unique` over masked rows), and the
    names of the entries. */
module OutputFormat {
  import opened Bins

  /** Only rows whose lower edge reaches this recoil value are written. */
  const MIN_RECOIL: real := 250.0

  /** `bins[:,0] >= 250`. */
  function RecoilMask(rows: seq<Row>): (m: seq<bool>)
    ensures |m| == |rows|
    ensures forall i :: 0 <= i < |rows| ==> (m[i] <==> rows[i].lo >= MIN_RECOIL)
  {
    seq(|rows|, i requires 0 <= i < |rows| => rows[i].lo >= MIN_RECOIL)
  }

  /** Boolean-mask indexing `s[m]`: the entries whose mask bit is set, in order. */
  function Select<T>(s: seq<T>, m: seq<bool>): (r: seq<T>)
    requires |s| == |m|
    ensures |r| <= |s|
  {
    if s == [] then []
    else (if m[0] then [s[0]] else []) + Select(s[1..], m[1..])
  }

  /** Two sequences indexed by the same mask stay aligned: a relation that
      holds entry by entry before the mask holds entry by entry after it. */
  lemma {:induction false} MaskedPairwise<T>(a: seq<T>, b: seq<T>, m: seq<bool>, R: (T, T) -> bool)
    requires |a| == |m| && |b| == |m|
    requires forall k :: 0 <= k < |m| ==> R(a[k], b[k])
    ensures |Select(a, m)| == |Select(b, m)|
    ensures forall i :: 0 <= i < |Select(a, m)| ==> R(Select(a, m)[i], Select(b, m)[i])
  {
    if m != [] {
      MaskedPairwise(a[1..], b[1..], m[1..], R);
      var ta, tb := Select(a[1..], m[1..]), Select(b[1..], m[1..]);
      if m[0] {
        assert Select(a, m) == [a[0]] + ta;
        assert Select(b, m) == [b[0]] + tb;
        forall i | 1 <= i < |Select(a, m)|
          ensures R(Select(a, m)[i], Select(b, m)[i])
        {
          assert Select(a, m)[i] == ta[i - 1] && Select(b, m)[i] == tb[i - 1];
        }
      } else {
        assert Select(a, m) == ta && Select(b, m) == tb;
      }
    }
  }

  /** The same mask keeps the same number of entries of any two sequences. */
  lemma {:induction false} SelectSameLength<T, U>(a: seq<T>, b: seq<U>, m: seq<bool>)
    requires |a| == |m| && |b| == |m|
    ensures |Select(a, m)| == |Select(b, m)|
  {
    if m != [] {
      SelectSameLength(a[1..], b[1..], m[1..]);
    }
  }

  /** With sorted edges the mask picks a suffix: every sequence indexed by
      the mask loses exactly its first j entries, j being the number of rows
      below the cut. */
  lemma {:induction false} SelectSuffix<T>(s: seq<T>, m: seq<bool>, j: nat)
    requires |s| == |m| && j <= |m|
    requires forall i :: 0 <= i < |m| ==> (m[i] <==> i >= j)
    ensures Select(s, m) == s[j..]
  {
    if s != [] {
      if j == 0 {
        SelectSuffix(s[1..], m[1..], 0);
      } else {
        SelectSuffix(s[1..], m[1..], j - 1);
      }
    }
  }

  predicate StrictlyIncreasing(s: seq<real>) {
    forall i, j :: 0 <= i < j < |s| ==> s[i] < s[j]
  }

  /** Inserts v into a strictly increasing sequence, keeping it strictly
      increasing and free of duplicates. */
  function Insert(v: real, s: seq<real>): (r: seq<real>)
    requires StrictlyIncreasing(s)
    ensures StrictlyIncreasing(r)
    ensures forall u :: u in r <==> u == v || u in s
    decreases |s|
  {
    if s == [] then [v]
    else if v < s[0] then [v] + s
    else if v == s[0] then s
    else
      var t := Insert(v, s[1..]);
      assert forall u :: u in s[1..] ==> s[0] < u;
      ConsIncreasing(s[0], t);
      [s[0]] + t
  }

  lemma ConsIncreasing(x: real, t: seq<real>)
    requires StrictlyIncreasing(t) && forall u :: u in t ==> x < u
    ensures StrictlyIncreasing([x] + t)
    ensures forall u :: u in [x] + t <==> u == x || u in t
  {
    var r := [x] + t;
    forall i, j | 0 <= i < j < |r|
      ensures r[i] < r[j]
    {
      assert r[j] == t[j - 1] && t[j - 1] in t;
      if i > 0 {
        assert r[i] == t[i - 1];
      }
    }
  }

  /** `np.unique`: the distinct values of s in increasing order. */
  function Unique(s: seq<real>): (r: seq<real>)
    ensures StrictlyIncreasing(r)
    ensures forall u :: u in r <==> u in s
  {
    if s == [] then [] else Insert(s[|s| - 1], Unique(s[..|s| - 1]))
  }

  /** Two strictly increasing sequences with the same elements are equal. */
  lemma {:induction false} SortedSetsEqual(a: seq<real>, b: seq<real>)
    requires StrictlyIncreasing(a) && StrictlyIncreasing(b)
    requires forall u :: u in a <==> u in b
    ensures a == b
  {
    if a != [] {
      assert a[0] in a;
      assert a[0] in b;
    }
    if b != [] {
      assert b[0] in b;
      assert b[0] in a;
    }
    if a != [] && b != [] {
      assert b[0] in a && a[0] in b;
      assert a[0] == b[0];
      forall u
        ensures u in a[1..] <==> u in b[1..]
      {
        if u in a[1..] {
          assert u in b && u != b[0];
        }
        if u in b[1..] {
          assert u in a && u != a[0];
        }
      }
      SortedSetsEqual(a[1..], b[1..]);
    }
  }

  /** All lower and upper edges of finite rows, row after row (the flattened
      k x 2 array). */
  function Flatten(rows: seq<Row>): (r: seq<real>)
    requires AllFinite(rows)
  {
    if rows == [] then [] else [rows[0].lo, rows[0].hi.value] + Flatten(rows[1..])
  }

  /** All rows but the last: `a[:-1]`, empty for an empty array. */
  function DropLast<T>(s: seq<T>): (r: seq<T>)
    ensures |s| > 0 ==> r == s[..|s| - 1]
  {
    if s == [] then [] else s[..|s| - 1]
  }

  lemma {:induction false} SelectKeepsFinite(rows: seq<Row>, m: seq<bool>)
    requires |rows| == |m| && AllFinite(rows)
    ensures AllFinite(Select(rows, m)) && AllFinite(DropLast(Select(rows, m)))
  {
    if rows != [] {
      SelectKeepsFinite(rows[1..], m[1..]);
    }
  }

  /** `np.unique(bins[mask][:-1])`: the edges of every written histogram. */
  function OutputEdges(rows: seq<Row>): (e: seq<real>)
    requires AllFinite(rows)
    ensures StrictlyIncreasing(e)
  {
    var masked := Select(rows, RecoilMask(rows));
    SelectKeepsFinite(rows, RecoilMask(rows));
    Unique(Flatten(DropLast(masked)))
  }

  /** The values of contiguous rows f_0 < f_1 < ... are exactly the f_i. */
  lemma {:induction false} FlattenContiguous(rows: seq<Row>, f: seq<real>)
    requires |f| == |rows| + 1
    requires forall i {:trigger rows[i]} :: 0 <= i < |rows| ==> rows[i] == Row(f[i], Finite(f[i + 1]))
    ensures AllFinite(rows)
    ensures |rows| > 0 ==> forall u :: u in Flatten(rows) <==> u in f
  {
    if |rows| > 1 {
      FlattenContiguous(rows[1..], f[1..]);
      assert f == [f[0]] + f[1..];
      forall u
        ensures u in Flatten(rows) <==> u in f
      {
        assert Flatten(rows) == [f[0], f[1]] + Flatten(rows[1..]);
      }
    } else if |rows| == 1 {
      assert rows[0] == Row(f[0], Finite(f[1]));
      assert Flatten(rows) == [f[0], f[1]];
    }
  }

  /** With strictly increasing bin edges and at least two rows at or above
      the cut, the written edges are the lower edges of the masked rows: the
      edges from the first one at or above the cut, so the written
      histograms have one regular bin fewer than masked rows and the last
      masked row lands in their overflow slot. */
  lemma OutputEdgesAreMaskedLowerEdges(edges: seq<real>, j: nat)
    requires |edges| >= 2 && StrictlyIncreasing(edges)
    requires j + 2 <= |edges|
    requires forall i :: 0 <= i < |edges| ==> (edges[i] >= MIN_RECOIL <==> i >= j)
    ensures OutputEdges(PatchedRows(edges)) == edges[j..]
    ensures Select(edges, RecoilMask(PatchedRows(edges))) == edges[j..]
  {
    var rows := PatchedRows(edges);
    var m := RecoilMask(rows);
    MaskIsSuffix(edges, j);
    SelectSuffix(rows, m, j);
    SelectSuffix(edges, m, j);
    var regular := DropLast(rows[j..]);
    var tail := edges[j..];
    RegularRowsContiguous(edges, j);
    FlattenContiguous(regular, tail);
    assert OutputEdges(rows) == Unique(Flatten(regular));
    SuffixIncreasing(edges, j);
    SortedSetsEqual(Unique(Flatten(regular)), tail);
  }

  lemma MaskIsSuffix(edges: seq<real>, j: nat)
    requires |edges| >= 2
    requires forall i :: 0 <= i < |edges| ==> (edges[i] >= MIN_RECOIL <==> i >= j)
    ensures forall i :: 0 <= i < |edges| ==> (RecoilMask(PatchedRows(edges))[i] <==> i >= j)
  {
    var rows := PatchedRows(edges);
    forall i | 0 <= i < |edges|
      ensures RecoilMask(rows)[i] <==> i >= j
    {
      assert rows[i].lo == edges[i];
    }
  }

  lemma RegularRowsContiguous(edges: seq<real>, j: nat)
    requires |edges| >= 2 && j + 2 <= |edges|
    ensures |DropLast(PatchedRows(edges)[j..])| + 1 == |edges[j..]|
    ensures forall i :: 0 <= i < |DropLast(PatchedRows(edges)[j..])| ==>
      DropLast(PatchedRows(edges)[j..])[i] == Row(edges[j..][i], Finite(edges[j..][i + 1]))
  {
    var rows := PatchedRows(edges);
    var regular := DropLast(rows[j..]);
    var tail := edges[j..];
    forall i | 0 <= i < |regular|
      ensures regular[i] == Row(tail[i], Finite(tail[i + 1]))
    {
      assert regular[i] == rows[j + i];
    }
  }

  lemma SuffixIncreasing(s: seq<real>, j: nat)
    requires StrictlyIncreasing(s) && j <= |s|
    ensures StrictlyIncreasing(s[j..])
  {
    var t := s[j..];
    forall a, b | 0 <= a < b < |t|
      ensures t[a] < t[b]
    {
      assert t[a] == s[j + a] && t[b] == s[j + b];
    }
  }

  /** The analysis channel of a region: `monojet` exactly when the region
      name contains "_j", `monov` otherwise. */
  datatype Channel = Monojet | Monov

  /** Python's `sub in s` on strings. */
  predicate Contains(s: string, sub: string)
    decreases |s|
  {
    |sub| <= |s| && (s[..|sub|] == sub || Contains(s[1..], sub))
  }

  function ChannelOf(region: string): Channel {
    if Contains(region, "_j") then Monojet else Monov
  }

  function ChannelName(c: Channel): string {
    match c
    case Monojet => "monojet"
    case Monov => "monov"
  }

  datatype Year = Y2017 | Y2018

  function YearName(y: Year): string {
    match y
    case Y2017 => "2017"
    case Y2018 => "2018"
  }

  /** The two systematic families written to the prediction file. */
  datatype Systematic = QcdBinning | QcdFit
  datatype Direction = Up | Down

  /** What an entry of the prediction file holds. */
  datatype Entry = Nominal | Variation(sys: Systematic, dir: Direction)

  function SystematicName(s: Systematic): string {
    match s
    case QcdBinning => "qcdbinning"
    case QcdFit => "qcdfit"
  }

  function DirectionName(d: Direction): string {
    match d
    case Up => "Up"
    case Down => "Down"
  }

  /** `qcd_{channel}_{year}`: the name of the nominal entry and the head of
      every variation's name. */
  function Base(c: Channel, y: Year): string {
    "qcd_" + ChannelName(c) + "_" + YearName(y)
  }

  /** `_{systematic}_{channel}_{year}{Up|Down}`: what a variation's name adds
      to the base. */
  function Suffix(c: Channel, y: Year, s: Systematic, d: Direction): string {
    "_" + SystematicName(s) + "_" + ChannelName(c) + "_" + YearName(y) + DirectionName(d)
  }

  /** The name an entry is written under. */
  function Key(c: Channel, y: Year, e: Entry): string {
    match e
    case Nominal => Base(c, y)
    case Variation(s, d) => Base(c, y) + Suffix(c, y, s, d)
  }

  /** Reads channel, year and entry back from a key (a proof device: the
      position of each distinguishing character is fixed by the channel). */
  function DecodeKey(k: string): (Channel, Year, Entry)
  {
    var c := if |k| > 8 && k[8] == 'j' then Monojet else Monov;
    var n := |ChannelName(c)|;
    var y := if |k| > n + 8 && k[n + 8] == '8' then Y2018 else Y2017;
    var e :=
      if |k| <= n + 9 then Nominal
      else
        var s := if |k| > n + 13 && k[n + 13] == 'b' then QcdBinning else QcdFit;
        var d := if k[|k| - 1] == 'p' then Up else Down;
        Variation(s, d);
    (c, y, e)
  }

  lemma BaseLayout(c: Channel, y: Year)
    ensures |Base(c, y)| == |ChannelName(c)| + 9
    ensures Base(c, y)[8] == (if c == Monojet then 'j' else 'v')
    ensures Base(c, y)[|ChannelName(c)| + 8] == (if y == Y2018 then '8' else '7')
  {
    match c {
      case Monojet =>
        match y {
          case Y2017 => assert Base(c, y) == "qcd_monojet_2017";
          case Y2018 => assert Base(c, y) == "qcd_monojet_2018";
        }
      case Monov =>
        match y {
          case Y2017 => assert Base(c, y) == "qcd_monov_2017";
          case Y2018 => assert Base(c, y) == "qcd_monov_2018";
        }
    }
  }

  lemma SuffixLayout(c: Channel, y: Year, s: Systematic, d: Direction)
    ensures |Suffix(c, y, s, d)| >= 5
    ensures Suffix(c, y, s, d)[4] == (if s == QcdBinning then 'b' else 'f')
    ensures Suffix(c, y, s, d)[|Suffix(c, y, s, d)| - 1] == (if d == Up then 'p' else 'n')
  {
    var t := "_" + SystematicName(s) + "_" + ChannelName(c) + "_" + YearName(y);
    assert Suffix(c, y, s, d) == t + DirectionName(d);
    assert t[4] == ("_" + SystematicName(s))[4];
  }

  lemma DecodeKeyInverts(c: Channel, y: Year, e: Entry)
    ensures DecodeKey(Key(c, y, e)) == (c, y, e)
  {
    BaseLayout(c, y);
    match e
    case Nominal =>
    case Variation(s, d) =>
      SuffixLayout(c, y, s, d);
      var k := Key(c, y, e);
      var n := |ChannelName(c)|;
      assert k[8] == Base(c, y)[8];
      assert k[n + 8] == Base(c, y)[n + 8];
      assert k[n + 13] == Suffix(c, y, s, d)[4];
  }

  /** Distinct (channel, year, entry) triples name distinct entries, so no
      write of the prediction overwrites another, within a year or across
      the two years. */
  lemma KeyInjective(c1: Channel, y1: Year, e1: Entry, c2: Channel, y2: Year, e2: Entry)
    requires Key(c1, y1, e1) == Key(c2, y2, e2)
    ensures c1 == c2 && y1 == y2 && e1 == e2
  {
    DecodeKeyInverts(c1, y1, e1);
    DecodeKeyInverts(c2, y2, e2);
  }

  /** A string with no '_' directly followed by 'j' does not contain "_j". */
  lemma {:induction false} NoUnderscoreJ(s: string)
    requires forall i :: 0 <= i < |s| - 1 ==> !(s[i] == '_' && s[i + 1] == 'j')
    ensures !Contains(s, "_j")
  {
    if |s| >= 2 {
      assert s[..2][0] == s[0] && s[..2][1] == s[1];
      NoUnderscoreJ(s[1..]);
    }
  }

  /** The regions of the analysis: `cr_qcd_j` feeds the monojet channel, the
      two `_v` regions the mono-V channel. */
  lemma MonojetRegion()
    ensures ChannelOf("cr_qcd_j") == Monojet
  {
    assert "cr_qcd_j"[6..][..2] == "_j";
  }

  lemma MonovRegions(region: string)
    requires region == "cr_qcd_loose_v" || region == "cr_qcd_tight_v"
    ensures ChannelOf(region) == Monov
  {
    assert forall i | 1 <= i < |region| :: region[i] != 'j';
    NoUnderscoreJ(region);
  }
}
