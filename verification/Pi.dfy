/** The spigot that prints pi digit by digit: an array of mixed-radix terms is multiplied by ten each
    round, and what carries out of it in front is the next digit. */
module Pi {
  import opened Widths

  /** The longest array whose terms times ten fit in 16 bits. */
  const MAX_TERMS: nat := 3277

  // ----- the number the terms stand for

  /** What n units of v are worth: n times v, as UnitsAreProduct shows. */
  ghost function Units(n: nat, v: real): (r: real)
    ensures v >= 0.0 ==> r >= 0.0
  {
    if n == 0 then 0.0 else Units(n - 1, v) + v
  }

  lemma {:induction false} UnitsAreProduct(n: nat, v: real)
    ensures Units(n, v) == n as real * v
  {
    if n > 0 {
      UnitsAreProduct(n - 1, v);
      assert n as real * v == (n - 1) as real * v + v;
    }
  }

  lemma {:induction false} UnitsAdd(a: nat, b: nat, v: real)
    ensures Units(a + b, v) == Units(a, v) + Units(b, v)
    decreases b
  {
    if b > 0 {
      UnitsAdd(a, b - 1, v);
    }
  }

  lemma {:induction false} UnitsOfUnits(a: nat, b: nat, ab: nat, v: real)
    requires ab == a * b
    ensures Units(ab, v) == Units(a, Units(b, v))
    decreases a
  {
    if a > 0 {
      assert ab == (a - 1) * b + b;
      UnitsOfUnits(a - 1, b, ab - b, v);
      UnitsAdd(ab - b, b, v);
    }
  }

  /** The weights of n terms: 1, 1/3, 1/3 * 2/5, ..., each i/(2i + 1) of the one before. */
  ghost function Weights(n: nat): (w: seq<real>)
    ensures |w| == n
  {
    if n == 0 then [] else if n == 1 then [1.0]
    else
      var i := n - 1;
      Weights(i) + [Weights(i)[i - 1] * i as real / (2 * i + 1) as real]
  }

  /** The number an array of terms stands for under weights w. */
  ghost function Value(terms: seq<u16>, w: seq<real>): real
    requires |terms| <= |w|
  {
    if terms == [] then 0.0
    else Value(terms[..|terms| - 1], w) + Units(terms[|terms| - 1], w[|terms| - 1])
  }

  /** Each of the weights 0 to i is positive, the first is 1, and 2i + 1 units of term i are worth i
      units of the term before it. */
  ghost predicate Weighing(w: seq<real>, i: nat)
    requires i < |w|
  {
    w[i] > 0.0 && if i == 0 then w[0] == 1.0 else Units(2 * i + 1, w[i]) == Units(i, w[i - 1]) && Weighing(w, i - 1)
  }

  /** There are such weights. */
  lemma {:induction false} WeightsWeigh(n: nat)
    requires n >= 1
    ensures Weighing(Weights(n), n - 1)
  {
    if n > 1 {
      var i := n - 1;
      var w, w' := Weights(i), Weights(n);
      WeightsWeigh(i);
      assert w'[i - 1] == w[i - 1];
      LastWeight(w[i - 1], i, w'[i]);
      WeighingPrefix(w, w', i - 1);
    }
  }

  lemma {:induction false} WeighingPrefix(w: seq<real>, w': seq<real>, i: nat)
    requires i < |w| <= |w'| && w == w'[..|w|] && Weighing(w, i)
    ensures Weighing(w', i)
  {
    assert w[i] == w'[i];
    if i > 0 {
      assert w[i - 1] == w'[i - 1];
      WeighingPrefix(w, w', i - 1);
    }
  }

  lemma LastWeight(v: real, i: nat, last: real)
    requires v > 0.0 && i >= 1 && last == v * i as real / (2 * i + 1) as real
    ensures last > 0.0 && Units(2 * i + 1, last) == Units(i, v)
  {
    UnitsAreProduct(2 * i + 1, last);
    UnitsAreProduct(i, v);
    CancelDivision(v, i as real, (2 * i + 1) as real, last);
  }

  lemma CancelDivision(v: real, a: real, d: real, last: real)
    requires v > 0.0 && a > 0.0 && d > 0.0 && last == v * a / d
    ensures last > 0.0 && d * last == a * v
  {
    assert v * a > 0.0;
  }

  lemma ValueSnoc(terms: seq<u16>, i: nat, t: u16, w: seq<real>)
    requires i == |terms| < |w|
    ensures Value(terms + [t], w) == Value(terms, w) + Units(t, w[i])
  {
    assert (terms + [t])[..|terms|] == terms;
  }

  // ----- one round

  function Tenfold(t: u16): nat {
    10 * t as int
  }

  /** What of `n` units of term i carries into the term before it, and what stays. */
  function CarryOut(n: nat, i: nat): nat {
    n / (2 * i + 1) * i
  }

  function Left(n: nat, i: nat): u16
    requires i < MAX_TERMS
  {
    var d := 2 * i + 1;
    assert n % d < d;
    n % d
  }

  /** The terms 0 to i, last to first, multiplied by ten, with `carry` coming into term i: what comes
      out of the first, and the terms left behind. */
  ghost function Reduce(terms: seq<u16>, i: nat, carry: nat): (r: (nat, seq<u16>))
    requires i + 1 == |terms| <= MAX_TERMS
    ensures |r.1| == |terms| && r.1[0] == 0
    decreases i
  {
    var n := carry + Tenfold(terms[i]);
    if i == 0 then (n, [0])
    else
      var (out, rest) := Reduce(terms[..i], i - 1, CarryOut(n, i));
      assert rest[0] == 0 && |rest| == i;
      (out, rest + [Left(n, i)])
  }

  /** A round keeps the number: ten times it, and what comes in, is what comes out and what is left. */
  lemma {:induction false} ReduceConserves(terms: seq<u16>, i: nat, carry: nat, w: seq<real>)
    requires i + 1 == |terms| <= MAX_TERMS && i < |w| && Weighing(w, i)
    ensures 10.0 * Value(terms, w) + Units(carry, w[i])
         == Reduce(terms, i, carry).0 as real + Value(Reduce(terms, i, carry).1, w)
    decreases i
  {
    var n := carry + Tenfold(terms[i]);
    assert terms[..i] + [terms[i]] == terms;
    ValueSnoc(terms[..i], i, terms[i], w);
    TenfoldUnits(carry, terms[i], n, w[i]);
    if i == 0 {
      UnitsAreProduct(n, 1.0);
    } else {
      CarryIsWorth(n, i, w);
      ReduceConserves(terms[..i], i - 1, CarryOut(n, i), w);
      ValueSnoc(Reduce(terms[..i], i - 1, CarryOut(n, i)).1, i, Left(n, i), w);
    }
  }

  lemma TenfoldUnits(carry: nat, t: u16, n: nat, v: real)
    requires n == carry + Tenfold(t)
    ensures Units(n, v) == Units(carry, v) + 10.0 * Units(t, v)
  {
    UnitsAdd(carry, Tenfold(t), v);
    UnitsOfUnits(10, t, Tenfold(t), v);
    UnitsAreProduct(10, Units(t, v));
  }

  /** Dividing by 2i + 1 splits a term into what stays and what carries into the term before it. */
  lemma CarryIsWorth(n: nat, i: nat, w: seq<real>)
    requires 1 <= i < |w| && Weighing(w, i) && i < MAX_TERMS
    ensures Units(n, w[i]) == Units(Left(n, i), w[i]) + Units(CarryOut(n, i), w[i - 1])
  {
    var d, c := 2 * i + 1, CarryOut(n, i);
    QuotientUnits(n, d, w[i]);
    assert c == n / d * i;
    UnitsOfUnits(n / d, i, c, w[i - 1]);
  }

  lemma QuotientUnits(n: nat, d: nat, v: real)
    requires d > 0
    ensures Units(n, v) == Units(n % d, v) + Units(n / d, Units(d, v))
  {
    var qd := n / d * d;
    UnitsOfUnits(n / d, d, qd, v);
    UnitsAdd(qd, n % d, v);
  }

  // ----- bounds

  /** Every term but the first is a digit of its radix; the first is at most 2. */
  ghost predicate Reduced(terms: seq<u16>) {
    forall i :: 0 <= i < |terms| ==> terms[i] <= if i == 0 then 2 else 2 * i
  }

  /** Coming into term i, the numerator is at most 20(i + 1); so it never exceeds 40i + 20, and it
      leaves a digit of the radix and at most 20i. */
  lemma NumeratorBound(i: nat, carry: nat, t: u16)
    requires 1 <= i < MAX_TERMS && carry <= 20 * (i + 1) && t <= 2 * i
    ensures carry + Tenfold(t) <= 40 * i + 20
    ensures Left(carry + Tenfold(t), i) <= 2 * i && CarryOut(carry + Tenfold(t), i) <= 20 * i
  {
    var n, d := carry + Tenfold(t), 2 * i + 1;
    assert n <= 20 * d;
    QuotientBound(n, d, 20);
    ProductBound(n / d, 20, i);
  }

  lemma QuotientBound(n: nat, d: nat, q: nat)
    requires d > 0 && n <= q * d
    ensures n / d <= q
  {
    assert n == d * (n / d) + n % d;
    if n / d > q {
      ProductBound(q + 1, n / d, d);
    }
  }

  lemma {:induction false} ReduceBounded(terms: seq<u16>, i: nat, carry: nat)
    requires i + 1 == |terms| <= MAX_TERMS && Reduced(terms) && carry <= 20 * (i + 1)
    ensures Reduced(Reduce(terms, i, carry).1) && Reduce(terms, i, carry).0 <= 40
    decreases i
  {
    if i > 0 {
      NumeratorBound(i, carry, terms[i]);
      ReduceBounded(terms[..i], i - 1, CarryOut(carry + Tenfold(terms[i]), i));
    }
  }

  /** Reduced terms, with nothing in front, stand for less than 2: what is missing is at least 2i + 2
      units of the last term. */
  lemma {:induction false} ValueBound(terms: seq<u16>, i: nat, w: seq<real>)
    requires i + 1 == |terms| <= |w| && Reduced(terms) && terms[0] == 0 && Weighing(w, i)
    ensures 0.0 <= Value(terms, w) && Value(terms, w) + Units(2 * i + 2, w[i]) <= 2.0
    decreases i
  {
    assert terms[..i] + [terms[i]] == terms;
    ValueSnoc(terms[..i], i, terms[i], w);
    if i > 0 {
      ValueBound(terms[..i], i - 1, w);
      UnitsAdd(i, i, w[i - 1]);
      UnitsAdd(2 * i + 1, 2 * i + 1, w[i]);
      UnitsAdd(terms[i], 2 * i + 2, w[i]);
      UnitsAdd(terms[i] + (2 * i + 2), 2 * i - terms[i], w[i]);
    }
  }

  /** Weights for an array of this many terms. */
  ghost predicate Fit(w: seq<real>, terms: nat) {
    1 <= terms <= |w| && Weighing(w, terms - 1)
  }

  lemma ReducedBound(terms: seq<u16>, w: seq<real>)
    requires Fit(w, |terms|) && Reduced(terms) && terms[0] == 0
    ensures 0.0 <= Value(terms, w) < 2.0
  {
    var i := |terms| - 1;
    ValueBound(terms, i, w);
    UnitsAdd(2 * i + 1, 1, w[i]);
  }

  // ----- digits

  /** One round: the digit (before any repair of a digit 10), the terms and the carry left. */
  ghost function Round(terms: seq<u16>, carry: nat): (nat, seq<u16>, nat)
    requires 1 <= |terms| <= MAX_TERMS
  {
    var (out, rest) := Reduce(terms, |terms| - 1, 0);
    (out / 10 + carry, rest, out % 10)
  }

  lemma NothingComesIn(terms: seq<u16>, w: seq<real>, i: nat, out: nat, rest: seq<u16>)
    requires i + 1 == |terms| == |rest| <= MAX_TERMS && Fit(w, i + 1) && Reduce(terms, i, 0) == (out, rest)
    ensures 10.0 * Value(terms, w) == out as real + Value(rest, w)
  {
    ReduceConserves(terms, i, 0, w);
  }

  /** A round takes one digit off the number: what is left, carry included, is a tenth of its weight. */
  lemma RoundTakesDigit(terms: seq<u16>, carry: nat, w: seq<real>, digit: nat, rest: seq<u16>, carry': nat)
    requires 1 <= |terms| <= MAX_TERMS && Fit(w, |terms|) && Round(terms, carry) == (digit, rest, carry')
    ensures |rest| == |terms|
    ensures carry as real + Value(terms, w) == digit as real + (carry' as real + Value(rest, w)) / 10.0
  {
    var out := Reduce(terms, |terms| - 1, 0).0;
    NothingComesIn(terms, w, |terms| - 1, out, rest);
    SplitTens(out, digit - carry, carry');
  }

  lemma SplitTens(out: nat, tens: nat, ones: nat)
    requires tens == out / 10 && ones == out % 10
    ensures out as real == 10.0 * tens as real + ones as real
  {
  }

  /** Terms as every round after the first finds them, or as the first one does. */
  ghost predicate Ready(terms: seq<u16>, carry: nat) {
    1 <= |terms| <= MAX_TERMS && Reduced(terms) && carry <= 9 && (terms[0] == 0 || carry == 0)
  }

  /** Every digit is at most 10, and the terms stay reduced. */
  lemma RoundBounds(terms: seq<u16>, carry: nat, w: seq<real>)
    requires Ready(terms, carry) && Fit(w, |terms|)
    ensures var (digit, rest, carry') := Round(terms, carry);
      digit <= 10 && Ready(rest, carry') && |rest| == |terms| && rest[0] == 0
  {
    ReduceBounded(terms, |terms| - 1, 0);
    var (out, rest) := Reduce(terms, |terms| - 1, 0);
    NothingComesIn(terms, w, |terms| - 1, out, rest);
    ReducedBound(rest, w);
    if terms[0] == 0 {
      ReducedBound(terms, w);
    }
  }

  /** n rounds: their digits, and the terms and carry left. */
  ghost function Digits(terms: seq<u16>, carry: nat, n: nat): (r: (seq<nat>, seq<u16>, nat))
    requires 1 <= |terms| <= MAX_TERMS
    ensures |r.0| == n && |r.1| == |terms|
  {
    if n == 0 then ([], terms, carry)
    else
      var (ds, before, c) := Digits(terms, carry, n - 1);
      var (digit, rest, carry') := Round(before, c);
      (ds + [digit], rest, carry')
  }

  /** x moved n decimal places to the right: x / 10^n. */
  ghost function Places(x: real, n: nat): real {
    if n == 0 then x else Places(x, n - 1) / 10.0
  }

  lemma {:induction false} PlacesAdd(x: real, y: real, n: nat)
    ensures Places(x + y, n) == Places(x, n) + Places(y, n)
  {
    if n > 0 {
      PlacesAdd(x, y, n - 1);
    }
  }

  lemma {:induction false} TenthOfPlaces(x: real, n: nat)
    ensures Places(x / 10.0, n) == Places(x, n + 1)
  {
    if n > 0 {
      TenthOfPlaces(x, n - 1);
    }
  }

  lemma {:induction false} PlacesMonotone(x: real, y: real, n: nat)
    requires 0.0 <= x < y
    ensures 0.0 <= Places(x, n) < Places(y, n)
  {
    if n > 0 {
      PlacesMonotone(x, y, n - 1);
    }
  }

  /** d0.d1d2d3... */
  ghost function Decimal(ds: seq<nat>): real {
    if ds == [] then 0.0 else Decimal(ds[..|ds| - 1]) + Places(ds[|ds| - 1] as real, |ds| - 1)
  }

  /** After any number of rounds the digits so far, and what carry and terms still hold n places
      further on, are exactly the number at the start. */
  lemma {:induction false} DigitsAreTheNumber(terms: seq<u16>, carry: nat, n: nat, w: seq<real>,
                                              ds: seq<nat>, rest: seq<u16>, carry': nat)
    requires 1 <= |terms| <= MAX_TERMS && Fit(w, |terms|) && Digits(terms, carry, n) == (ds, rest, carry')
    ensures carry as real + Value(terms, w) == Decimal(ds) + Places(carry' as real + Value(rest, w), n)
    decreases n
  {
    if n > 0 {
      var (before, held, c, digit) := LastRound(terms, carry, n, ds, rest, carry');
      DigitsAreTheNumber(terms, carry, n - 1, w, before, held, c);
      RoundStep(carry as real + Value(terms, w), before, held, c, w, n, ds, digit, rest, carry');
    }
  }

  /** The last of n rounds. */
  ghost function LastRound(terms: seq<u16>, carry: nat, n: nat, ds: seq<nat>, rest: seq<u16>, carry': nat)
    : (r: (seq<nat>, seq<u16>, nat, nat))
    requires 1 <= |terms| <= MAX_TERMS && n > 0 && Digits(terms, carry, n) == (ds, rest, carry')
    ensures Digits(terms, carry, n - 1) == (r.0, r.1, r.2) && |r.1| == |terms|
    ensures ds == r.0 + [r.3] && Round(r.1, r.2) == (r.3, rest, carry')
  {
    var (before, held, c) := Digits(terms, carry, n - 1);
    (before, held, c, Round(held, c).0)
  }

  lemma RoundStep(number: real, before: seq<nat>, held: seq<u16>, c: nat, w: seq<real>, n: nat,
                  ds: seq<nat>, digit: nat, rest: seq<u16>, carry: nat)
    requires 1 <= |held| <= MAX_TERMS && Fit(w, |held|) && Round(held, c) == (digit, rest, carry)
    requires n == |before| + 1 && ds == before + [digit]
    requires number == Decimal(before) + Places(c as real + Value(held, w), n - 1)
    ensures |rest| == |held| && number == Decimal(ds) + Places(carry as real + Value(rest, w), n)
  {
    RoundTakesDigit(held, c, w, digit, rest, carry);
    NextDigit(number, c as real + Value(held, w), digit, carry as real + Value(rest, w), before, ds, n);
  }

  lemma NextDigit(number: real, x: real, digit: nat, left: real, before: seq<nat>, ds: seq<nat>, n: nat)
    requires n == |before| + 1 && ds == before + [digit]
    requires number == Decimal(before) + Places(x, n - 1) && x == digit as real + left / 10.0
    ensures number == Decimal(ds) + Places(left, n)
  {
    assert ds[..n - 1] == before;
    PlacesAdd(digit as real, left / 10.0, n - 1);
    TenthOfPlaces(left, n - 1);
  }

  /** The terms at the start: all 2. */
  ghost function Start(n: nat): (terms: seq<u16>)
    requires n <= MAX_TERMS
    ensures |terms| == n
  {
    seq(n, _ => 2)
  }

  lemma {:induction false} RunsStayReady(terms: seq<u16>, n: nat, w: seq<real>)
    requires Ready(terms, 0) && Fit(w, |terms|)
    ensures var (ds, rest, carry) := Digits(terms, 0, n);
      && Ready(rest, carry) && (n > 0 ==> rest[0] == 0)
      && forall j :: 0 <= j < n ==> ds[j] <= 10
  {
    if n > 0 {
      RunsStayReady(terms, n - 1, w);
      RoundBounds(Digits(terms, 0, n - 1).1, Digits(terms, 0, n - 1).2, w);
    }
  }

  /** The decimals computed in n rounds fall short of the number started from by less than 11 units
      of the n-th decimal place, whatever the number of terms; no digit exceeds 10. */
  lemma DigitsApproximate(terms: nat, n: nat, w: seq<real>)
    requires terms <= MAX_TERMS && n >= 1 && Fit(w, terms)
    ensures var ds := Digits(Start(terms), 0, n).0;
      && 0.0 <= Value(Start(terms), w) - Decimal(ds) < Places(11.0, n)
      && forall j :: 0 <= j < n ==> ds[j] <= 10
  {
    var r := Digits(Start(terms), 0, n);
    RunsStayReady(Start(terms), n, w);
    DigitsAreTheNumber(Start(terms), 0, n, w, r.0, r.1, r.2);
    ReducedBound(r.1, w);
    PlacesMonotone(r.2 as real + Value(r.1, w), 11.0, n);
  }

  // ----- the program

  /** What the carry loop keeps: the whole reduction is that of the terms not yet visited, with the
      terms left behind after them. */
  ghost predicate Halfway(before: seq<u16>, now: seq<u16>, i: nat, carry: nat)
    requires i < |before| == |now| <= MAX_TERMS
  {
    && now[..i + 1] == before[..i + 1]
    && var (out, rest) := Reduce(before[..i + 1], i, carry);
      Reduce(before, |before| - 1, 0) == (out, rest + now[i + 1..])
  }

  lemma AtTheStart(before: seq<u16>)
    requires 1 <= |before| <= MAX_TERMS
    ensures Halfway(before, before, |before| - 1, 0)
  {
    var i := |before| - 1;
    var rest := Reduce(before, i, 0).1;
    assert before[..i + 1] == before;
    assert rest + before[i + 1..] == rest;
  }

  lemma OneFurther(before: seq<u16>, now: seq<u16>, i: nat, carry: nat, n: nat)
    requires 1 <= i < |before| == |now| <= MAX_TERMS && Halfway(before, now, i, carry) && n == carry + Tenfold(now[i])
    ensures Halfway(before, now[i := Left(n, i)], i - 1, CarryOut(n, i))
  {
    var now' := now[i := Left(n, i)];
    assert now[i] == now[..i + 1][i] == before[i];
    assert now'[..i] == now[..i + 1][..i] == before[..i + 1][..i] == before[..i];
    var (out, rest) := Reduce(before[..i], i - 1, CarryOut(n, i));
    assert Reduce(before[..i + 1], i, carry) == (out, rest + [Left(n, i)]);
    assert rest + [Left(n, i)] + now[i + 1..] == rest + now'[i..];
  }

  lemma AtTheEnd(before: seq<u16>, now: seq<u16>, carry: nat)
    requires 1 <= |before| == |now| <= MAX_TERMS && Halfway(before, now, 0, carry)
    ensures now[0] == before[0]
    ensures Reduce(before, |before| - 1, 0) == (carry + Tenfold(now[0]), now[0 := 0])
  {
    FirstTerm(before, now);
    assert Reduce(before[..1], 0, carry) == (carry + Tenfold(now[0]), [0]);
    assert [0] + now[1..] == now[0 := 0];
  }

  lemma FirstTerm(before: seq<u16>, now: seq<u16>)
    requires 1 <= |before| == |now| && now[..1] == before[..1]
    ensures now[0] == before[0] == before[..1][0]
  {
    assert now[0] == now[..1][0];
  }

  /** One round over the terms in place, from the last down to the first. */
  method DigitRound(terms: array<u16>, carry: u16) returns (digit: u16, carry': u16)
    requires Ready(terms[..], carry)
    modifies terms
    ensures (digit as nat, terms[..], carry' as nat) == Round(old(terms[..]), carry)
    ensures Ready(terms[..], carry') && terms[0] == 0
  {
    WeightsWeigh(terms.Length);
    RoundBounds(terms[..], carry, Weights(terms.Length));
    var numerator := CarryTerms(terms);
    digit := numerator / 10 + carry;
    carry' := numerator % 10;
  }

  /** The carry loop: what comes out in front, first term included. */
  method CarryTerms(terms: array<u16>) returns (numerator: u32)
    requires 1 <= terms.Length <= MAX_TERMS && Reduced(terms[..])
    modifies terms
    ensures (numerator as nat, terms[..]) == Reduce(old(terms[..]), terms.Length - 1, 0)
  {
    ghost var before := terms[..];
    AtTheStart(before);
    numerator := 0;
    var i := terms.Length - 1;
    while i > 0
      invariant 0 <= i < terms.Length && numerator <= 20 * (i + 1)
      invariant Halfway(before, terms[..], i, numerator)
    {
      numerator := StepTerm(terms, i, numerator, before);
      i := i - 1;
    }
    AtTheEnd(before, terms[..], numerator);
    numerator := numerator + terms[0] * 10;
    terms[0] := 0;
  }

  /** The body of the carry loop: nothing overflows its width. */
  method CarryTerm(terms: array<u16>, i: nat, carry: u32) returns (numerator: u32)
    requires 1 <= i < terms.Length <= MAX_TERMS && carry <= 20 * (i + 1) && terms[i] <= 2 * i
    modifies terms
    ensures numerator == CarryOut(carry + Tenfold(old(terms[i])), i) && numerator <= 20 * i
    ensures terms[..] == old(terms[..])[i := Left(carry + Tenfold(old(terms[i])), i)]
  {
    NumeratorBound(i, carry, terms[i]);
    var tenfold: u16 := terms[i] * 10;
    numerator := carry + tenfold;
    var denominator: u16 := 2 * i + 1;
    terms[i] := numerator % denominator;
    numerator := numerator / denominator;
    numerator := numerator * i;
  }

  method StepTerm(terms: array<u16>, i: nat, carry: u32, ghost before: seq<u16>) returns (numerator: u32)
    requires 1 <= i < terms.Length == |before| <= MAX_TERMS && carry <= 20 * (i + 1)
    requires Reduced(before) && Halfway(before, terms[..], i, carry)
    modifies terms
    ensures numerator <= 20 * i && Halfway(before, terms[..], i - 1, numerator)
  {
    ghost var now := terms[..];
    assert terms[i] == now[..i + 1][i] == before[i];
    OneFurther(before, now, i, carry, carry + Tenfold(now[i]));
    numerator := CarryTerm(terms, i, carry);
  }

  /** Set all terms to 2 and compute digits round by round. */
  method ComputeDigits(n: nat, rounds: nat) returns (digits: seq<nat>)
    requires n + 1 <= MAX_TERMS
    ensures digits == Digits(Start(n + 1), 0, rounds).0
  {
    var terms := new u16[n + 1];
    var i := 0;
    while i < n + 1
      invariant i <= n + 1 && forall k :: 0 <= k < i ==> terms[k] == 2
    {
      terms[i] := 2;
      i := i + 1;
    }
    assert terms[..] == Start(n + 1);
    var carry: u16 := 0;
    digits := [];
    var j := 0;
    while j < rounds
      invariant j <= rounds && Ready(terms[..], carry)
      invariant (digits, terms[..], carry as nat) == Digits(Start(n + 1), 0, j)
    {
      var digit;
      digit, carry := DigitRound(terms, carry);
      digits := digits + [digit as nat];
      j := j + 1;
    }
  }
}
