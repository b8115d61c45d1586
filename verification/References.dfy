// Transaction references: the UTC date of the clock reading, and one more than the number of
// transactions already created on the local day of that reading.
module References {
  import opened Calendar
  import opened Sums
  import opened Numbers

  // toISOString().slice(0, 10) without its dashes; years have four digits.
  const LAST_MONTH: nat := 12 * 9999 + 11

  function Stamp(d: Date): string {
    Padded(d.month / 12, 4) + Padded(d.month % 12 + 1, 2) + Padded(d.day, 2)
  }

  // A reading is kept in UTC; the process sees it shifted by its offset in milliseconds.
  function LocalDay(t: Clock, offset: int): int {
    Serial(t.date) + (t.ms + offset) / MS_PER_DAY
  }

  function OnDay(day: int, offset: int): Clock -> int {
    (t: Clock) => if LocalDay(t, offset) == day then 1 else 0
  }

  lemma CountIsNat(earlier: seq<Clock>, day: int, offset: int)
    ensures Sum(earlier, OnDay(day, offset)) >= 0
  {
  }

  // The transactions created so far on a local day.
  function CreatedOn(earlier: seq<Clock>, day: int, offset: int): nat {
    CountIsNat(earlier, day, offset);
    Sum(earlier, OnDay(day, offset))
  }

  function ReferenceAt(run: seq<Clock>, i: nat, offset: int): string
    requires i < |run|
  {
    "TXN" + "-" + Stamp(run[i].date) + "-" + Padded(CreatedOn(run[..i], LocalDay(run[i], offset), offset) + 1, 5)
  }

  // A run of clock readings at which transactions are created.
  ghost predicate IsRun(run: seq<Clock>) {
    && (forall i :: 0 <= i < |run| ==> run[i].date.month <= LAST_MONTH)
    && (forall i, j :: 0 <= i < j < |run| ==> NotBefore(run[j], run[i]))
  }

  ghost predicate Distinct(run: seq<Clock>, offset: int) {
    forall i, j :: 0 <= i < j < |run| ==> ReferenceAt(run, i, offset) != ReferenceAt(run, j, offset)
  }

  lemma {:induction false} DigitsWidth(n: nat, width: nat, bound: nat)
    requires n < bound && width > 0 && bound == Power(width)
    ensures |Digits(n)| <= width
  {
    if n < 10 {
    } else {
      assert width > 1;
      assert bound / 10 == Power(width - 1);
      DigitsWidth(n / 10, width - 1, bound / 10);
    }
  }

  function Power(width: nat): nat {
    if width == 0 then 1 else 10 * Power(width - 1)
  }

  lemma PaddedWidth(n: nat, width: nat)
    requires 0 < width && n < Power(width)
    ensures |Padded(n, width)| == width && AllDigits(Padded(n, width))
  {
    DigitsWidth(n, width, Power(width));
    PaddingKeepsValue(Digits(n), width);
  }

  lemma PaddedInjective(m: nat, n: nat, width: nat)
    requires Padded(m, width) == Padded(n, width)
    ensures m == n
  {
    ParseIntRoundTrip(m, width);
    ParseIntRoundTrip(n, width);
  }

  lemma StampShape(d: Date)
    requires d.month <= LAST_MONTH
    ensures |Stamp(d)| == 8 && AllDigits(Stamp(d))
    ensures Stamp(d)[..4] == Padded(d.month / 12, 4)
    ensures Stamp(d)[4..6] == Padded(d.month % 12 + 1, 2)
    ensures Stamp(d)[6..] == Padded(d.day, 2)
  {
    assert Power(2) == 100 && Power(3) == 1000 && Power(4) == 10000;
    PaddedWidth(d.month / 12, 4);
    PaddedWidth(d.month % 12 + 1, 2);
    PaddedWidth(d.day, 2);
  }

  // Within four-digit years, the stamp identifies the date.
  lemma StampIdentifiesDate(d: Date, e: Date)
    requires d.month <= LAST_MONTH && e.month <= LAST_MONTH && Stamp(d) == Stamp(e)
    ensures d == e
  {
    StampShape(d);
    StampShape(e);
    PaddedInjective(d.month / 12, e.month / 12, 4);
    PaddedInjective(d.month % 12 + 1, e.month % 12 + 1, 2);
    PaddedInjective(d.day, e.day, 2);
  }

  lemma ReferenceParts(run: seq<Clock>, i: nat, offset: int)
    requires i < |run| && run[i].date.month <= LAST_MONTH
    ensures Field(ReferenceAt(run, i, offset), 1) == Stamp(run[i].date)
    ensures Field(ReferenceAt(run, i, offset), 2)
         == Padded(CreatedOn(run[..i], LocalDay(run[i], offset), offset) + 1, 5)
  {
    var count := CreatedOn(run[..i], LocalDay(run[i], offset), offset);
    StampShape(run[i].date);
    ParseIntRoundTrip(count + 1, 5);
    ThreeFields("TXN", Stamp(run[i].date), Padded(count + 1, 5));
  }

  lemma LocalDayInUtc(t: Clock)
    ensures LocalDay(t, 0) == Serial(t.date)
  {
  }

  lemma UtcReferencesDiffer(run: seq<Clock>, i: nat, j: nat)
    requires i < j < |run| && run[i].date.month <= LAST_MONTH && run[j].date.month <= LAST_MONTH
    ensures ReferenceAt(run, i, 0) != ReferenceAt(run, j, 0)
  {
    ReferenceParts(run, i, 0);
    ReferenceParts(run, j, 0);
    LocalDayInUtc(run[i]);
    LocalDayInUtc(run[j]);
    hide ReferenceAt, Field, Stamp, Padded, Serial, LocalDay;
    var day := LocalDay(run[i], 0);
    if ReferenceAt(run, i, 0) == ReferenceAt(run, j, 0) {
      StampIdentifiesDate(run[i].date, run[j].date);
      PaddedInjective(CreatedOn(run[..i], day, 0) + 1, CreatedOn(run[..j], day, 0) + 1, 5);
      assert run[..j] == run[..i] + run[i..j];
      SumConcat(run[..i], run[i..j], OnDay(day, 0));
      SumAtLeastOne(run[i..j], OnDay(day, 0), 0);
      assert false;
    }
  }

  // A date, and two readings at its first and its last millisecond in UTC.
  const SOME_DAY: Date := CivilDate(24_288, 1)
  const DAY_EDGES: seq<Clock> := [Reading(SOME_DAY, 0), Reading(SOME_DAY, MS_PER_DAY - 1)]

  // Off UTC, the two edges of a UTC day fall on different local days: the count restarts
  // under the same stamp.
  lemma OffUtcReferencesCollide(offset: int)
    requires -(MS_PER_DAY as int) < offset < MS_PER_DAY && offset != 0
    ensures IsRun(DAY_EDGES) && !Distinct(DAY_EDGES, offset)
  {
    var (a, b) := (DAY_EDGES[0], DAY_EDGES[1]);
    hide Serial, Stamp, Padded;
    assert LocalDay(a, offset) != LocalDay(b, offset);
    assert DAY_EDGES[..1] == [a] && DAY_EDGES[..0] == [];
    assert Sum([a], OnDay(LocalDay(b, offset), offset)) == 0 by {
      SumZero([a], OnDay(LocalDay(b, offset), offset));
    }
    assert ReferenceAt(DAY_EDGES, 0, offset) == ReferenceAt(DAY_EDGES, 1, offset);
  }

  // References are unique in every run exactly when the process clock is kept in UTC.
  lemma ReferencesUniqueIffUtc(offset: int)
    requires -(MS_PER_DAY as int) < offset < MS_PER_DAY
    ensures (forall run :: IsRun(run) ==> Distinct(run, offset)) <==> offset == 0
  {
    if offset == 0 {
      forall run | IsRun(run) ensures Distinct(run, 0) {
        forall i, j | 0 <= i < j < |run| ensures ReferenceAt(run, i, 0) != ReferenceAt(run, j, 0) {
          UtcReferencesDiffer(run, i, j);
        }
      }
    } else {
      OffUtcReferencesCollide(offset);
    }
  }
}
