/** Shared vocabulary of the model: optional values, calendar dates as day
    numbers, Python's Monday-first weekday table, exact ratios standing in
    for float percentages, and Python's str.split(',') / ','.join. */
module Common {

  datatype Option<T> = None | Some(value: T)

  /** A handler's outcome: a value, or the HTTP status of the error it raises. */
  datatype Result<T> = Ok(value: T) | Failure(status: int)

  /** A calendar date as its proleptic Gregorian ordinal, as Python's
      date.toordinal() gives it: 0001-01-01 is day 1. Subtracting two dates
      gives the number of days between them, as timedelta.days does. */
  type Date = int

  /** A point in time (datetime) in microseconds, the resolution of Python's datetime. */
  type Timestamp = int

  const MicrosPerSecond: int := 1000000
  const MicrosPerMinute: int := 60 * MicrosPerSecond
  const MicrosPerHour: int := 60 * MicrosPerMinute
  const MicrosPerDay: int := 24 * MicrosPerHour

  /** Python's date.weekday(): Monday is 0 and Sunday is 6. Day 1 was a Monday. */
  function Weekday(d: Date): (w: nat)
    ensures w < 7
  {
    (d + 6) % 7
  }

  /** Euclidean division is unique: the remainder of 7 * q + r is r. */
  lemma ModUnique(x: int, q: int, r: int)
    requires 0 <= r < 7 && x == 7 * q + r
    ensures x % 7 == r && x / 7 == q
  {
  }

  /** Weekdays repeat every 7 days. */
  lemma WeekdayPeriodic(d: Date, k: int)
    ensures Weekday(d + 7 * k) == Weekday(d)
  {
    ModUnique(d + 6 + 7 * k, (d + 6) / 7 + k, (d + 6) % 7);
  }

  /** The next day has the next weekday, Sunday wrapping to Monday. */
  lemma WeekdayNext(d: Date)
    ensures Weekday(d + 1) == (Weekday(d) + 1) % 7
  {
    var q, r := (d + 6) / 7, (d + 6) % 7;
    if r < 6 {
      ModUnique(d + 7, q, r + 1);
    } else {
      ModUnique(d + 7, q + 1, 0);
    }
  }

  /** The fixed weekday table the source indexes by weekday(), Monday first. */
  const WeekdayNames: seq<string> := ["mon", "tue", "wed", "thu", "fri", "sat", "sun"]

  /** The full weekday names, Monday first, as date.strftime('%A') gives them. */
  const FullDayNames: seq<string> := ["Monday", "Tuesday", "Wednesday", "Thursday", "Friday", "Saturday", "Sunday"]

  function DayName(d: Date): (name: string)
    ensures name in WeekdayNames && name != ""
    ensures name == WeekdayNames[Weekday(d)]
  {
    WeekdayNames[Weekday(d)]
  }

  /** Python's str.split(','): the pieces between commas, in order. The empty
      string splits into one empty piece. */
  function Split(s: string): (parts: seq<string>)
    ensures |parts| >= 1
    ensures forall i :: 0 <= i < |parts| ==> ',' !in parts[i]
    ensures |parts| == 1 + multiset(s)[',']
    decreases |s|
  {
    if |s| == 0 then [""]
    else
      var rest := Split(s[1..]);
      assert s == [s[0]] + s[1..];
      if s[0] == ',' then [""] + rest
      else [[s[0]] + rest[0]] + rest[1..]
  }

  /** Python's ','.join(parts). */
  function Join(parts: seq<string>): string
    decreases |parts|
  {
    if |parts| == 0 then ""
    else if |parts| == 1 then parts[0]
    else parts[0] + "," + Join(parts[1..])
  }

  predicate CommaFree(parts: seq<string>)
  {
    forall i :: 0 <= i < |parts| ==> ',' !in parts[i]
  }

  /** A piece without a comma splits into itself. */
  lemma {:induction false} SplitCommaFree(w: string)
    requires ',' !in w
    ensures Split(w) == [w]
    decreases |w|
  {
    if |w| > 0 {
      SplitCommaFree(w[1..]);
      assert w == [w[0]] + w[1..];
    }
  }

  /** Splitting "w,rest" yields w followed by the pieces of rest. */
  lemma {:induction false} SplitCons(w: string, rest: string)
    requires ',' !in w
    ensures Split(w + "," + rest) == [w] + Split(rest)
    decreases |w|
  {
    if |w| == 0 {
      assert w + "," + rest == [','] + rest;
      assert ([','] + rest)[1..] == rest;
    } else {
      var s := w + "," + rest;
      assert s[1..] == w[1..] + "," + rest;
      SplitCons(w[1..], rest);
      var tail := Split(s[1..]);
      assert tail == [w[1..]] + Split(rest);
      assert s[0] == w[0] && s[0] != ',';
      assert Split(s) == [[s[0]] + tail[0]] + tail[1..];
      assert [w[0]] + w[1..] == w;
    }
  }

  /** Joining comma-free pieces and splitting again gives the pieces back. */
  lemma {:induction false} SplitJoin(parts: seq<string>)
    requires |parts| >= 1 && CommaFree(parts)
    ensures Split(Join(parts)) == parts
    decreases |parts|
  {
    if |parts| == 1 {
      SplitCommaFree(parts[0]);
    } else {
      SplitJoin(parts[1..]);
      SplitCons(parts[0], Join(parts[1..]));
      assert [parts[0]] + parts[1..] == parts;
    }
  }

  /** Splitting and joining again gives the string back. */
  lemma {:induction false} JoinSplit(s: string)
    ensures Join(Split(s)) == s
    decreases |s|
  {
    if |s| > 0 {
      JoinSplit(s[1..]);
      var rest := Split(s[1..]);
      assert s == [s[0]] + s[1..];
      if s[0] == ',' {
        assert Split(s) == [""] + rest;
        assert ([""] + rest)[1..] == rest;
      } else {
        var parts := Split(s);
        assert parts == [[s[0]] + rest[0]] + rest[1..];
        if |rest| == 1 {
          assert Join(parts) == [s[0]] + rest[0];
        } else {
          var tail := Join(rest[1..]);
          JoinCons([s[0]] + rest[0], rest[1..]);
          assert rest == [rest[0]] + rest[1..];
          JoinCons(rest[0], rest[1..]);
          ConcatAssoc([s[0]], rest[0], ",", tail);
        }
      }
    }
  }

  lemma ConcatAssoc(a: string, b: string, c: string, d: string)
    ensures a + b + c + d == a + (b + c + d)
  {
  }

  /** Joining a piece in front of a non-empty list puts a comma after it. */
  lemma JoinCons(w: string, rest: seq<string>)
    requires |rest| >= 1
    ensures Join([w] + rest) == w + "," + Join(rest)
  {
    assert ([w] + rest)[1..] == rest;
  }

  /** An exact ratio num / den with a positive denominator, standing in for
      a float the source computes by division (a percentage or a rate). */
  type Positive = x: int | x > 0 witness 1

  datatype Ratio = Ratio(num: int, den: Positive)

  /** a >= b as rationals. */
  predicate RatioGe(a: Ratio, b: Ratio)
  {
    a.num * b.den >= b.num * a.den
  }

  /** a > b as rationals. */
  predicate RatioGt(a: Ratio, b: Ratio)
  {
    a.num * b.den > b.num * a.den
  }

  /** Multiplying both sides by a positive factor keeps the order. */
  lemma MulMono(x: int, y: int, k: Positive)
    ensures x >= y <==> x * k >= y * k
    ensures x > y <==> x * k > y * k
  {
    if x >= y {
      assert x * k - y * k == (x - y) * k;
    } else {
      assert y * k - x * k == (y - x) * k;
    }
  }

  /** The order of ratios is transitive. */
  lemma RatioGeTrans(a: Ratio, b: Ratio, c: Ratio)
    requires RatioGe(a, b) && RatioGe(b, c)
    ensures RatioGe(a, c)
  {
    MulMono(a.num * b.den, b.num * a.den, c.den);
    MulMono(b.num * c.den, c.num * b.den, a.den);
    MulSwap(a.num, b.den, c.den);
    MulSwap(b.num, a.den, c.den);
    MulSwap(c.num, b.den, a.den);
    MulMono(a.num * c.den, c.num * a.den, b.den);
  }

  lemma MulSwap(x: int, y: int, z: int)
    ensures x * y * z == x * z * y
  {
  }

  /** Strictly above then at least: strictly above. */
  lemma RatioGtGeTrans(a: Ratio, b: Ratio, c: Ratio)
    requires RatioGt(a, b) && RatioGe(b, c)
    ensures RatioGt(a, c)
  {
    MulMono(a.num * b.den, b.num * a.den, c.den);
    MulMono(b.num * c.den, c.num * b.den, a.den);
    MulSwap(a.num, b.den, c.den);
    MulSwap(b.num, a.den, c.den);
    MulSwap(c.num, b.den, a.den);
    MulMono(a.num * c.den, c.num * a.den, b.den);
  }

  function RatioAdd(a: Ratio, b: Ratio): Ratio
  {
    Ratio(a.num * b.den + b.num * a.den, a.den * b.den)
  }

  /** The sum of the ratios. */
  function RatioSum(s: seq<Ratio>): Ratio
  {
    if s == [] then Ratio(0, 1) else RatioAdd(RatioSum(s[..|s| - 1]), s[|s| - 1])
  }

  /** The ratio lies in [lo, hi]. */
  predicate Within(r: Ratio, lo: int, hi: int)
  {
    lo * r.den <= r.num <= hi * r.den
  }

  /** The sum of n ratios each within [-100, 100] is within [-100 n, 100 n]. */
  lemma {:induction false} RatioSumBounds(s: seq<Ratio>)
    requires forall i :: 0 <= i < |s| ==> Within(s[i], -100, 100)
    ensures Within(RatioSum(s), -100 * |s|, 100 * |s|)
  {
    if s != [] {
      var init, x := s[..|s| - 1], s[|s| - 1];
      RatioSumBounds(init);
      var t := RatioSum(init);
      var k := |init|;
      MulMono(t.num, 100 * k * t.den, x.den);
      MulMono(-100 * k * t.den, t.num, x.den);
      MulMono(x.num, 100 * x.den, t.den);
      MulMono(-100 * x.den, x.num, t.den);
      assert 100 * k * t.den * x.den + 100 * x.den * t.den == 100 * (k + 1) * (t.den * x.den);
      assert -100 * k * t.den * x.den + -100 * x.den * t.den == -100 * (k + 1) * (t.den * x.den);
    }
  }

  /** The mean of a non-empty list of ratios. */
  function Mean(s: seq<Ratio>): Ratio
    requires |s| > 0
  {
    var t := RatioSum(s);
    Ratio(t.num, t.den * |s|)
  }

  /** The mean of ratios in [-100, 100] is in [-100, 100]. */
  lemma MeanBounds(s: seq<Ratio>)
    requires |s| > 0
    requires forall i :: 0 <= i < |s| ==> Within(s[i], -100, 100)
    ensures Within(Mean(s), -100, 100)
  {
    RatioSumBounds(s);
    var t := RatioSum(s);
    assert 100 * |s| * t.den == 100 * (t.den * |s|);
    assert -100 * |s| * t.den == -100 * (t.den * |s|);
  }

  /** num / den * 100 when den > 0, else 0: the source's percentage pattern. */
  function Percent(num: int, den: int): (r: Ratio)
    ensures den > 0 ==> r.num * den == 100 * num * r.den
    ensures den <= 0 ==> r.num == 0
  {
    if den > 0 then Ratio(100 * num, den) else Ratio(0, 1)
  }

  function Abs(x: int): (r: nat)
    ensures r == x || r == -x
  {
    if x < 0 then -x else x
  }

  function Max(a: int, b: int): (r: int)
    ensures r >= a && r >= b && (r == a || r == b)
  {
    if a >= b then a else b
  }

  /** Python's int(x / y) for y > 0: division truncating toward zero. */
  function TruncDiv(x: int, y: Positive): (q: int)
    ensures x >= 0 ==> q * y <= x < q * y + y
    ensures x < 0 ==> q * y >= x > q * y - y
  {
    if x >= 0 then x / y else -((-x) / y)
  }

  /** The entries of s in the opposite order, as reversed() gives them. */
  function Reverse<T(!new)>(s: seq<T>): (r: seq<T>)
    ensures |r| == |s| && forall i :: 0 <= i < |s| ==> r[i] == s[|s| - 1 - i]
    ensures forall x :: x in r <==> x in s
  {
    if s == [] then [] else Reverse(s[1..]) + [s[0]]
  }

  /** The elements of a sequence are pairwise distinct. */
  predicate Distinct<T(==)>(s: seq<T>)
  {
    forall i, j :: 0 <= i < j < |s| ==> s[i] != s[j]
  }

  /** A sequence has exactly as many distinct elements as entries iff it has no repeats. */
  lemma {:induction false} DistinctCard<T>(s: seq<T>)
    ensures |set x | x in s| <= |s|
    ensures |set x | x in s| == |s| <==> Distinct(s)
    decreases |s|
  {
    if |s| > 0 {
      var t := s[..|s| - 1];
      var x := s[|s| - 1];
      DistinctCard(t);
      assert s == t + [x];
      assert (set y | y in s) == (set y | y in t) + {x};
      if x in t {
        assert (set y | y in s) == (set y | y in t);
        var k :| 0 <= k < |t| && t[k] == x;
        assert s[k] == s[|s| - 1];
      } else {
        assert |set y | y in s| == |set y | y in t| + 1;
        if Distinct(t) {
          forall i, j | 0 <= i < j < |s| ensures s[i] != s[j] {
            if j == |s| - 1 {
              assert s[i] == t[i];
            } else {
              assert s[i] == t[i] && s[j] == t[j];
            }
          }
        } else {
          var i, j :| 0 <= i < j < |t| && t[i] == t[j];
          assert s[i] == s[j];
        }
      }
    }
  }

  /** A subset is no larger than its superset. */
  lemma SubsetCard<T>(a: set<T>, b: set<T>)
    requires a <= b
    ensures |a| <= |b|
  {
    assert b == a + (b - a);
  }

  /** A subset as large as its superset is the whole superset. */
  lemma SubsetFull<T>(a: set<T>, b: set<T>)
    requires a <= b && |a| == |b|
    ensures a == b
  {
    if a != b {
      var x :| x in b && x !in a;
      assert |b - {x}| == |b| - 1;
      SubsetCard(a, b - {x});
    }
  }

  /** A non-empty set has a member (stated so that a choice from it can be made). */
  lemma HasMember(s: set<int>)
    requires s != {}
    ensures exists x :: x in s
  {
    assert (forall x :: x !in s) ==> s == {};
  }
}
