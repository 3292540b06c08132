/** Small shared vocabulary of the template service model: optional values,
    identities, wall-clock instants and the first-match lookup that every
    natural-key resolution of the import pass uses. */
module Common {

  datatype Option<+T> = None | Some(value: T)
  {
    function GetOr(default: T): T {
      match this
      case Some(v) => v
      case None => default
    }
  }

  /** A Guid. Fresh identities come from a counter (see ImportPass.GuidSupply),
      so a natural number is enough to tell them apart. */
  type Guid = nat

  /** The calendar and clock fields of a .NET DateTime, to one-second precision. */
  datatype Instant = Instant(year: int, month: int, day: int, hour: int, minute: int, second: int)
  {
    predicate InRange() {
      1 <= year <= 9999 && 1 <= month <= 12 && 1 <= day <= DaysInMonth(year, month) &&
      0 <= hour < 24 && 0 <= minute < 60 && 0 <= second < 60
    }
  }

  /** Gregorian leap years: every fourth year, except centuries not divisible by 400. */
  predicate IsLeapYear(year: int)
  {
    year % 4 == 0 && (year % 100 != 0 || year % 400 == 0)
  }

  /** DateTime.DaysInMonth for a month 1..12 of the Gregorian calendar. */
  function DaysInMonth(year: int, month: int): int
    requires 1 <= month <= 12
  {
    [31, if IsLeapYear(year) then 29 else 28, 31, 30, 31, 30, 31, 31, 30, 31, 30, 31][month - 1]
  }

  /** The calendar rejects dates that do not exist: 29 February only in leap
      years (so not in 1900, but in 2000 and 2024), and never a 31st of a
      30-day month. */
  lemma CalendarDates()
    ensures Instant(2024, 2, 29, 0, 0, 0).InRange() && Instant(2000, 2, 29, 0, 0, 0).InRange()
    ensures !Instant(2023, 2, 29, 0, 0, 0).InRange() && !Instant(1900, 2, 29, 0, 0, 0).InRange()
    ensures !Instant(2024, 2, 30, 0, 0, 0).InRange() && !Instant(2024, 4, 31, 0, 0, 0).InRange()
    ensures Instant(2024, 12, 31, 23, 59, 59).InRange()
  {
  }

  /** A DateTime value: every field within the range .NET allows. */
  type DateTime = t: Instant | t.InRange() witness Instant(1, 1, 1, 0, 0, 0)

  /** List<T>.Find: the first element satisfying `p`, or None when there is none. */
  function Find<X>(xs: seq<X>, p: X -> bool): (r: Option<X>)
    ensures r.Some? ==> r.value in xs && p(r.value)
  {
    if xs == [] then None
    else if p(xs[0]) then Some(xs[0])
    else Find(xs[1..], p)
  }

  /** Find yields None exactly when no element satisfies `p`, and otherwise
      an element at a position that satisfies `p` with none before it. */
  lemma {:induction false} FindFirst<X>(xs: seq<X>, p: X -> bool)
    ensures var r := Find(xs, p);
      (r.None? <==> forall i :: 0 <= i < |xs| ==> !p(xs[i])) &&
      (r.Some? ==> exists i :: 0 <= i < |xs| && xs[i] == r.value && p(xs[i]) && IsFirst(xs, p, i))
  {
    if xs == [] {
    } else if p(xs[0]) {
      assert IsFirst(xs, p, 0);
    } else {
      FindFirst(xs[1..], p);
      var r := Find(xs[1..], p);
      if r.Some? {
        var i :| 0 <= i < |xs[1..]| && xs[1..][i] == r.value && p(xs[1..][i]) && IsFirst(xs[1..], p, i);
        assert xs[i + 1] == r.value && IsFirst(xs, p, i + 1) by {
          forall j | 0 <= j < i + 1 ensures !p(xs[j]) {
            if j > 0 { assert xs[j] == xs[1..][j - 1]; }
          }
        }
      } else {
        forall i | 0 <= i < |xs| ensures !p(xs[i]) {
          if i > 0 { assert xs[i] == xs[1..][i - 1]; }
        }
      }
    }
  }

  /** `Find(x => key(x) == k)`: lookup by a natural key. */
  function FindBy<X>(xs: seq<X>, key: X -> string, k: string): Option<X>
  {
    Find(xs, (x: X) => key(x) == k)
  }

  /** A lookup by key yields None exactly when no element has key `k`, and
      otherwise the first element that has it. */
  lemma FindByFirst<X>(xs: seq<X>, key: X -> string, k: string)
    ensures var r := FindBy(xs, key, k);
      (r.None? <==> forall i :: 0 <= i < |xs| ==> key(xs[i]) != k) &&
      (r.Some? ==> exists i :: 0 <= i < |xs| && xs[i] == r.value && key(r.value) == k &&
                     forall j :: 0 <= j < i ==> key(xs[j]) != k)
  {
    var p := (x: X) => key(x) == k;
    FindFirst(xs, p);
    if FindBy(xs, key, k).Some? {
      var i :| 0 <= i < |xs| && xs[i] == FindBy(xs, key, k).value && p(xs[i]) && IsFirst(xs, p, i);
      assert forall j :: 0 <= j < i ==> !p(xs[j]);
    }
  }

  /** No element before position `i` satisfies `p`. */
  predicate IsFirst<X>(xs: seq<X>, p: X -> bool, i: int)
    requires 0 <= i <= |xs|
  {
    forall j :: 0 <= j < i ==> !p(xs[j])
  }
}
