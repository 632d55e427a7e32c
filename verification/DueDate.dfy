/** The past-due-date rule: a comparison of rendered UTC dates. */
module DueDate {
  import opened Common

  /** A calendar date in UTC. RFC 3339 timestamps, converted to UTC, have years -1 to 10000. */
  datatype RawDate = Date(year: int, month: nat, day: nat) {
    predicate Valid() { -1 <= year <= 10000 && 1 <= month <= 12 && 1 <= day <= 31 }
  }
  type Date = d: RawDate | d.Valid() witness Date(1970, 1, 1)

  /** A due date in a request: absent, explicitly cleared, or given. */
  datatype DueInput = Absent | Clear | Due(date: Date)

  function Digits(n: nat, width: nat): (s: string)
    ensures |s| == width
  {
    if width == 0 then "" else Digits(n / 10, width - 1) + ["0123456789"[n % 10]]
  }

  /** The layout 2006-01-02: at least four digits of the year, a minus sign before a negative one. */
  function Year(y: int): string
    requires -1 <= y <= 10000
  {
    if y < 0 then "-" + Digits(-y, 4) else if y < 10000 then Digits(y, 4) else Digits(y, 5)
  }

  function Render(d: Date): string {
    Year(d.year) + "-" + Digits(d.month, 2) + "-" + Digits(d.day, 2)
  }

  /** Bytewise string order. */
  predicate StringLess(a: string, b: string) {
    b != "" && (a == "" || a[0] < b[0] || (a[0] == b[0] && StringLess(a[1..], b[1..])))
  }

  predicate InPast(due: DueInput, today: Date) {
    due.Due? && StringLess(Render(due.date), Render(today))
  }

  predicate Before(a: Date, b: Date) {
    a.year < b.year || (a.year == b.year && (a.month < b.month || (a.month == b.month && a.day < b.day)))
  }

  /** Parts of equal length are compared first. */
  lemma {:induction false} LessByParts(a: string, x: string, b: string, y: string)
    requires |a| == |b|
    ensures StringLess(a + x, b + y) <==> StringLess(a, b) || (a == b && StringLess(x, y))
  {
    if a == "" {
      assert a + x == x && b + y == y;
    } else {
      assert (a + x)[1..] == a[1..] + x && (b + y)[1..] == b[1..] + y;
      assert a == b <==> a[0] == b[0] && a[1..] == b[1..];
      LessByParts(a[1..], x, b[1..], y);
    }
  }

  lemma DigitOrder(i: nat, j: nat)
    requires i < 10 && j < 10
    ensures StringLess(["0123456789"[i]], ["0123456789"[j]]) <==> i < j
    ensures "0123456789"[i] == "0123456789"[j] <==> i == j
  {
    assert "0123456789"[i] == '0' + i as char && "0123456789"[j] == '0' + j as char;
  }

  function Pow10(n: nat): nat {
    if n == 0 then 1 else 10 * Pow10(n - 1)
  }

  /** Numerals of equal width are ordered as their numbers. */
  lemma {:induction false} DigitsOrder(n: nat, m: nat, width: nat)
    requires n < Pow10(width) && m < Pow10(width)
    ensures StringLess(Digits(n, width), Digits(m, width)) <==> n < m
    ensures Digits(n, width) == Digits(m, width) <==> n == m
  {
    if width > 0 {
      var a, x := Digits(n / 10, width - 1), ["0123456789"[n % 10]];
      var b, y := Digits(m / 10, width - 1), ["0123456789"[m % 10]];
      DigitsOrder(n / 10, m / 10, width - 1);
      DigitOrder(n % 10, m % 10);
      LessByParts(a, x, b, y);
      assert a + x == b + y <==> a == b && x == y by {
        if a + x == b + y { assert a == (a + x)[..width - 1] && b == (b + y)[..width - 1]; }
      }
    }
  }

  /** The tails "-MM-DD" of two renderings. */
  lemma TailOrder(d: Date, e: Date)
    ensures StringLess("-" + Digits(d.month, 2) + "-" + Digits(d.day, 2), "-" + Digits(e.month, 2) + "-" + Digits(e.day, 2))
            <==> d.month < e.month || (d.month == e.month && d.day < e.day)
  {
    assert Pow10(2) == 100;
    var m, n, x, y := Digits(d.month, 2), Digits(e.month, 2), Digits(d.day, 2), Digits(e.day, 2);
    assert "-" + m + "-" + x == "-" + (m + ("-" + x)) && "-" + n + "-" + y == "-" + (n + ("-" + y));
    LessByParts("-", m + ("-" + x), "-", n + ("-" + y));
    LessByParts(m, "-" + x, n, "-" + y);
    LessByParts("-", x, "-", y);
    DigitsOrder(d.month, e.month, 2);
    DigitsOrder(d.day, e.day, 2);
  }

  lemma SplitRender(d: Date)
    ensures Render(d) == Year(d.year) + ("-" + Digits(d.month, 2) + "-" + Digits(d.day, 2))
  {
  }

  /** For years 0 to 9999 the order of the renderings is the order of the calendar. */
  lemma RenderingOrderIsCalendarOrder(d: Date, e: Date)
    requires 0 <= d.year <= 9999 && 0 <= e.year <= 9999
    ensures StringLess(Render(d), Render(e)) <==> Before(d, e)
  {
    assert Pow10(4) == 10000;
    SplitRender(d);
    SplitRender(e);
    LessByParts(Year(d.year), "-" + Digits(d.month, 2) + "-" + Digits(d.day, 2),
                Year(e.year), "-" + Digits(e.month, 2) + "-" + Digits(e.day, 2));
    DigitsOrder(d.year, e.year, 4);
    TailOrder(d, e);
  }

  /**
   The rule rejects exactly the dates before today, except that a due date in the year 10000, which has five
   digits, is rejected although it is in the future when today's year is after 1000.
   */
  lemma RejectsExactly(due: Date, today: Date)
    requires 0 <= today.year <= 9999
    ensures InPast(Due(due), today) <==> Before(due, today) || (due.year == 10000 && today.year > 1000)
  {
    SplitRender(due);
    SplitRender(today);
    if due.year < 0 {
      assert Year(due.year)[0] == '-';
      assert Year(today.year)[0] == Digits(today.year, 4)[0];
      FirstDigit(today.year);
    } else if due.year == 10000 {
      YearTenThousand(due, today);
    } else {
      RenderingOrderIsCalendarOrder(due, today);
    }
  }

  lemma FirstDigit(y: nat)
    ensures '0' <= Digits(y, 4)[0] <= '9'
  {
    assert Digits(y, 4)[0] == Digits(y / 10, 3)[0] == Digits(y / 10 / 10, 2)[0] == Digits(y / 10 / 10 / 10, 1)[0];
  }

  lemma TenThousand()
    ensures Digits(10000, 5) == Digits(1000, 4) + "0" && Pow10(4) == 10000
  {
    assert 10000 / 10 == 1000 && 10000 % 10 == 0 && "0123456789"[0] == '0';
  }

  lemma YearTenThousand(due: Date, today: Date)
    requires due.year == 10000 && 0 <= today.year <= 9999
    ensures StringLess(Render(due), Render(today)) <==> today.year > 1000
  {
    hide Digits, Pow10;
    TenThousand();
    var x := "-" + Digits(due.month, 2) + "-" + Digits(due.day, 2);
    var y := "-" + Digits(today.month, 2) + "-" + Digits(today.day, 2);
    SplitRender(due);
    SplitRender(today);
    assert Render(due) == Digits(1000, 4) + ("0" + x);
    LessByParts(Digits(1000, 4), "0" + x, Digits(today.year, 4), y);
    DigitsOrder(1000, today.year, 4);
    assert ("0" + x)[0] == '0' && y[0] == '-';
  }
}
