/** The four record tables that `summary` joins, one datatype per row kind,
    with the per-row predicates the selections use: the ±30-day window
    (`Series.between`, inclusive at both ends) and the case-insensitive
    keyword match on work-order text. Timestamps are already-parsed
    integers (seconds); a missing date (NaT) or a missing text (NaN) is `None`. */
module Records {

  datatype Option<T> = None | Some(value: T)

  /** Facility identifiers are compared for equality only. */
  type FacilityId = string

  /** A row of the pressure table `thp`. */
  datatype Reading = Reading(facility: FacilityId, timestamp: int, pressure: real)

  /** A row of the drone table: a detection of an open hatch at time `dtm`. */
  datatype Detection = Detection(facility: FacilityId, dtm: int)

  /** A row of the work-order table. */
  datatype WorkOrder = WorkOrder(
    facility: FacilityId,
    created: Option<int>,
    actualStart: Option<int>,
    actualEnd: Option<int>,
    description: Option<string>,
    resolution: Option<string>)

  /** A row of the inspection-form table. */
  datatype Form = Form(facility: FacilityId, submitDate: Option<int>)

  const DaySeconds: int := 86400
  /** Half-width of the window around a detection: `timedelta(days=30)`. */
  const HalfWidth: int := 30 * DaySeconds

  function WindowStart(t: int): int { t - HalfWidth }
  function WindowEnd(t: int): int { t + HalfWidth }

  /** `Series.between(lo, hi)` with its default inclusive bounds. */
  predicate Between(x: int, lo: int, hi: int) { lo <= x <= hi }

  /** `between` on a date column that may hold NaT: a missing date is never in range. */
  predicate DateBetween(d: Option<int>, lo: int, hi: int) {
    d.Some? && Between(d.value, lo, hi)
  }

  /** The date mask of the work-order selection: created, start or end date in range. */
  predicate DatedBetween(w: WorkOrder, lo: int, hi: int) {
    DateBetween(w.created, lo, hi) || DateBetween(w.actualStart, lo, hi) || DateBetween(w.actualEnd, lo, hi)
  }

  /** `fillna('')` on a text column. */
  function TextOrEmpty(s: Option<string>): string {
    if s.Some? then s.value else ""
  }

  /** ASCII lower-casing of one character. */
  function LowerChar(c: char): char {
    if 'A' <= c <= 'Z' then (c as int + 32) as char else c
  }

  /** `str.lower()` restricted to ASCII letters. */
  function Lower(s: string): string {
    seq(|s|, i requires 0 <= i < |s| => LowerChar(s[i]))
  }

  /** `pat` occurs in `s` starting at position `i`. */
  predicate MatchAt(s: string, pat: string, i: int) {
    0 <= i && i + |pat| <= |s| && s[i..i + |pat|] == pat
  }

  /** Occurrences in `s[1..]` are the occurrences in `s` after position 0, shifted by one. */
  lemma MatchAtShift(s: string, pat: string)
    requires s != []
    ensures forall i :: MatchAt(s[1..], pat, i) ==> MatchAt(s, pat, i + 1)
    ensures forall i :: MatchAt(s, pat, i) && i != 0 ==> MatchAt(s[1..], pat, i - 1)
  {
  }

  /** `str.contains(pat)` as substring search. pandas reads the pattern as a
      regular expression by default; for "hatch", which has no regular
      expression metacharacters, the two agree. */
  function Contains(s: string, pat: string): (b: bool)
    ensures b <==> exists i :: MatchAt(s, pat, i)
    decreases |s|
  {
    if |s| < |pat| then false
    else if s[..|pat|] == pat then assert MatchAt(s, pat, 0); true
    else
      MatchAtShift(s, pat);
      Contains(s[1..], pat)
  }

  const Keyword: string := "hatch"

  /** The keyword mask on work orders: the lower-cased description or the
      lower-cased resolution text contains "hatch", missing text read as "". */
  predicate MentionsHatch(w: WorkOrder) {
    Contains(Lower(TextOrEmpty(w.description)), Keyword) ||
    Contains(Lower(TextOrEmpty(w.resolution)), Keyword)
  }

  /** The keyword mask is a substring test on the ASCII-lower-cased texts. */
  lemma MentionsHatchSpec(w: WorkOrder)
    ensures MentionsHatch(w) <==>
      (exists i :: MatchAt(Lower(TextOrEmpty(w.description)), "hatch", i)) ||
      (exists i :: MatchAt(Lower(TextOrEmpty(w.resolution)), "hatch", i))
  {
  }
}
