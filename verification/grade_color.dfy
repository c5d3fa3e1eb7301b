/** `Double.gradeColor` (GPXKit+Extensions.swift) as a classifier of a grade,
    in percent, into the ten colour bands of the elevation chart. Only the
    band is modelled; the colour values themselves are assets of the app. */
module GradeColors {

  /** The ten bands, steepest descent first, and `Clear` for the `default`
      branch of the switch. */
  datatype GradeBand = HcDown | Cat1Down | Cat2Down | Cat3Down | Cat4Down | Cat4 | Cat3 | Cat2 | Cat1 | HC | Clear

  /** The switch in source order: half-open ranges `lo ..< hi`, open below
      for the first and open above for the last case. */
  function GradeColor(grade: real): (r: GradeBand)
    ensures r != Clear
    ensures r == HcDown <==> grade < -20.0
    ensures r == HC <==> 12.0 <= grade
  {
    if grade < -20.0 then HcDown
    else if -20.0 <= grade < -15.0 then Cat1Down
    else if -15.0 <= grade < -10.0 then Cat2Down
    else if -10.0 <= grade < -5.0 then Cat3Down
    else if -5.0 <= grade < 0.0 then Cat4Down
    else if 0.0 <= grade < 3.0 then Cat4
    else if 3.0 <= grade < 6.0 then Cat3
    else if 6.0 <= grade < 9.0 then Cat2
    else if 9.0 <= grade < 12.0 then Cat1
    else if 12.0 <= grade then HC
    else Clear
  }

  /** An independent description of the same classification: the band
      boundaries in increasing order, and the bands between them. */
  const Boundaries: seq<real> := [-20.0, -15.0, -10.0, -5.0, 0.0, 3.0, 6.0, 9.0, 12.0]
  const Bands: seq<GradeBand> := [HcDown, Cat1Down, Cat2Down, Cat3Down, Cat4Down, Cat4, Cat3, Cat2, Cat1, HC]

  ghost predicate StrictlySorted(bs: seq<real>) {
    forall i, j :: 0 <= i < j < |bs| ==> bs[i] < bs[j]
  }

  /** How many of the boundaries `bs` are at most `grade`. */
  function CountAtMost(bs: seq<real>, grade: real): (r: nat)
    ensures r <= |bs|
  {
    if |bs| == 0 then 0
    else (if bs[0] <= grade then 1 else 0) + CountAtMost(bs[1..], grade)
  }

  /** The band position of a grade: the number of boundaries it has passed. */
  function BandIndex(grade: real): (r: nat)
    ensures r < |Bands|
  {
    CountAtMost(Boundaries, grade)
  }

  /** Band `k` is the half-open range between boundary `k - 1` and boundary
      `k`, unbounded below for the first and above for the last band. */
  ghost predicate InBand(k: nat, grade: real)
    requires k < |Bands|
  {
    (k == 0 || Boundaries[k - 1] <= grade) && (k == |Bands| - 1 || grade < Boundaries[k])
  }

  /** Over sorted boundaries the count splits them exactly: those below the
      count are passed, the rest are not. */
  lemma {:induction false} CountSplitsSorted(bs: seq<real>, grade: real)
    requires StrictlySorted(bs)
    ensures forall i :: 0 <= i < |bs| ==> (bs[i] <= grade <==> i < CountAtMost(bs, grade))
  {
    if |bs| > 0 {
      var rest := bs[1..];
      assert StrictlySorted(rest) by {
        forall i, j | 0 <= i < j < |rest| ensures rest[i] < rest[j] {
          assert rest[i] == bs[i + 1] && rest[j] == bs[j + 1];
        }
      }
      CountSplitsSorted(rest, grade);
      forall i | 0 <= i < |bs| ensures bs[i] <= grade <==> i < CountAtMost(bs, grade) {
        if i > 0 {
          assert bs[i] == rest[i - 1];
        } else if bs[0] > grade {
          if |rest| > 0 {
            assert forall j :: 0 <= j < |rest| ==> rest[j] > grade by {
              forall j | 0 <= j < |rest| ensures rest[j] > grade {
                assert rest[j] == bs[j + 1];
              }
            }
          }
        }
      }
    }
  }

  /** The band index is the unique band whose range holds the grade: the ten
      ranges are disjoint and cover every real number. */
  lemma BandIndexIsUniqueBand(grade: real, k: nat)
    requires k < |Bands|
    ensures BandIndex(grade) == k <==> InBand(k, grade)
  {
    CountSplitsSorted(Boundaries, grade);
    var c := BandIndex(grade);
    if c == k {
      if k > 0 { assert Boundaries[k - 1] <= grade; }
      if k < |Bands| - 1 { assert !(Boundaries[k] <= grade); }
    }
  }

  /** The switch agrees with the table: every grade gets the band its index
      selects. */
  lemma GradeColorMatchesTable(grade: real)
    ensures GradeColor(grade) == Bands[BandIndex(grade)]
  {
    var k := BandIndex(grade);
    BandIndexIsUniqueBand(grade, k);
  }

  /** The band index never decreases as the grade grows. */
  lemma {:induction false} CountMonotone(bs: seq<real>, g1: real, g2: real)
    requires g1 <= g2
    ensures CountAtMost(bs, g1) <= CountAtMost(bs, g2)
  {
    if |bs| > 0 {
      CountMonotone(bs[1..], g1, g2);
    }
  }

  /** The position of a band in the chart's scale, `Clear` after all. */
  function Rank(b: GradeBand): (r: nat)
    ensures b != Clear ==> r < |Bands| && Bands[r] == b
  {
    match b
    case HcDown => 0
    case Cat1Down => 1
    case Cat2Down => 2
    case Cat3Down => 3
    case Cat4Down => 4
    case Cat4 => 5
    case Cat3 => 6
    case Cat2 => 7
    case Cat1 => 8
    case HC => 9
    case Clear => 10
  }

  /** A steeper grade never gets a band lower in the scale. */
  lemma GradeColorMonotone(g1: real, g2: real)
    requires g1 <= g2
    ensures Rank(GradeColor(g1)) <= Rank(GradeColor(g2))
  {
    GradeColorMatchesTable(g1);
    GradeColorMatchesTable(g2);
    CountMonotone(Boundaries, g1, g2);
    RankOfTable(BandIndex(g1));
    RankOfTable(BandIndex(g2));
  }

  lemma RankOfTable(k: nat)
    requires k < |Bands|
    ensures Rank(Bands[k]) == k
  {
  }
}
