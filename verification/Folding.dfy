// Folding of unsigned constants in 128 bits, truncated only when emitted,
// against run-time arithmetic that wraps at the width of the type.
module Folding {

  import opened Wrappers
  import opened Bits

  datatype Op = ADD | SUB | MUL | DIV | MIN | MAX | EQ | NE | GT | GE | LT | LE | BOR | BAND | LSHIFT | RSHIFT

  /** `Lit(w, n)` is a literal of the unsigned type of `w` bits. */
  datatype Expr = Lit(w: nat, n: nat) | Bin(op: Op, lhs: Expr, rhs: Expr)

  /** A compile-time constant: its kind and a 128-bit payload. */
  datatype Const = Const(w: nat, value: nat)

  /** A run-time value. */
  datatype Value = Num(w: nat, value: nat) | Truth(b: bool)

  predicate Comparison(op: Op) {
    op in {EQ, NE, GT, GE, LT, LE}
  }

  predicate Compare(op: Op, l: int, r: int)
    requires Comparison(op)
  {
    match op
    case EQ => l == r
    case NE => l != r
    case GT => l > r
    case GE => l >= r
    case LT => l < r
    case LE => l <= r
    case _ => assert false; false
  }

  /** Operators that act within `bits` bits; shifts are by less than that. */
  function Arith(op: Op, l: nat, r: nat, bits: nat): nat {
    var m := Pow2(bits);
    match op
    case ADD => (l + r) % m
    case SUB => (l - r) % m
    case MUL => (l * r) % m
    case BOR => Or(l, r) % m
    case BAND => And(l, r) % m
    case LSHIFT => (l * Pow2(r)) % m
    case _ => l / Pow2(r)
  }

  predicate Folds(op: Op) {
    op in {ADD, SUB, MUL, BOR, BAND, LSHIFT, RSHIFT}
  }

  // At compile time

  /** Division, minimum and maximum are not folded. */
  function Fold(e: Expr): Option<Const> {
    match e
    case Lit(w, n) => Some(Const(w, n % Pow2(w)))
    case Bin(op, lhs, rhs) =>
      var l, r := Fold(lhs), Fold(rhs);
      if l.None? || r.None? || l.value.w != r.value.w then None
      else if Comparison(op) then
        Some(Const(l.value.w, if Compare(op, l.value.value, r.value.value) then 1 else 0))
      else if Folds(op) then Some(Const(l.value.w, Arith(op, l.value.value, r.value.value, 128)))
      else None
  }

  /** The constant that is emitted: the payload passes through 64 bits. */
  function Emit(c: Const): nat {
    c.value % Pow2(64) % Pow2(c.w)
  }

  // At run time

  /** None where the operands have different types, are truth values, or divide or shift too far. */
  function Run(e: Expr): Option<Value> {
    match e
    case Lit(w, n) => Some(Num(w, n % Pow2(64) % Pow2(w)))
    case Bin(op, lhs, rhs) =>
      var l, r := Run(lhs), Run(rhs);
      if l.None? || r.None? || l.value.Truth? || r.value.Truth? || l.value.w != r.value.w then None
      else
        var x, y, w := l.value.value, r.value.value, l.value.w;
        if Comparison(op) then Some(Truth(Compare(op, x, y)))
        else if (op == LSHIFT || op == RSHIFT) && y >= w then None
        else if Folds(op) then Some(Num(w, Arith(op, x, y, w)))
        else if op == DIV then (if y == 0 then None else Some(Num(w, x / y)))
        else if op == MIN then Some(Num(w, if x < y then x else y))
        else Some(Num(w, if x > y then x else y))
  }

  /** The emitted constant is the run-time value; truth values are one and zero. */
  predicate Agrees(c: Const, v: Value) {
    match v
    case Num(w, x) => c.w == w && Emit(c) == x
    case Truth(b) => Emit(c) == if b then 1 else 0
  }

  /** Literals all have `w` bits. */
  predicate Typed(e: Expr, w: nat) {
    match e
    case Lit(v, _) => v == w
    case Bin(_, lhs, rhs) => Typed(lhs, w) && Typed(rhs, w)
  }

  /** When the 128-bit result of `op` is that of wrapping at every step: a right shift must not move
    * bits from above the width into it, and a comparison must not be decided above the width
    * otherwise than it is below. */
  predicate Harmless(op: Op, l: nat, r: nat, w: nat) {
    var m := Pow2(w);
    if op == RSHIFT then (l / m) % Pow2(r) == 0
    else if Comparison(op) then l / m == r / m || Compare(op, l / m, r / m) == Compare(op, l % m, r % m)
    else true
  }

  predicate ShiftsWithin(op: Op, r: nat, w: nat) {
    op == LSHIFT || op == RSHIFT ==> r < w
  }

  /** Every operator below the root, and the root itself, is harmless; comparisons only at the root. */
  predicate Faithful(e: Expr, w: nat)
    decreases e, 1
  {
    match e
    case Lit(_, _) => true
    case Bin(op, lhs, rhs) =>
      && Ready(op, lhs, rhs, w)
      && !Comparison(op)
      && Harmless(op, Fold(lhs).value.value, Fold(rhs).value.value, w)
  }

  /** The operands are faithful and `op` folds them. */
  predicate Ready(op: Op, lhs: Expr, rhs: Expr, w: nat)
    decreases Bin(op, lhs, rhs), 0
  {
    && Faithful(lhs, w) && Faithful(rhs, w)
    && Fold(lhs).Some? && Fold(rhs).Some?
    && (Folds(op) || Comparison(op))
    && ShiftsWithin(op, Fold(rhs).value.value, w)
  }

  // Residues

  /** Adding a multiple does not change the residue. */
  lemma Shifted(a: int, k: int, m: nat)
    requires m > 0
    ensures (a + k * m) % m == a % m
  {
    var q, r := a / m, a % m;
    assert a == q * m + r;
    Distribute(q, k, m);
    Remainder(a + k * m, m, q + k, r);
  }

  lemma Distribute(q: int, k: int, m: int)
    ensures (q + k) * m == q * m + k * m
  {
  }

  lemma ModAdd(a: nat, b: nat, m: nat)
    requires m > 0
    ensures (a + b) % m == (a % m + b % m) % m
  {
    Parts(a, b, m);
    Shifted(a % m + b % m, a / m + b / m, m);
  }

  lemma ModSub(a: nat, b: nat, m: nat)
    requires m > 0
    ensures (a - b) % m == (a % m - b % m) % m
  {
    Parts(a, b, m);
    Shifted(a % m - b % m, a / m - b / m, m);
  }

  lemma Parts(a: nat, b: nat, m: nat)
    requires m > 0
    ensures a + b == a % m + b % m + (a / m + b / m) * m
    ensures a - b == a % m - b % m + (a / m - b / m) * m
  {
    var q, p, x, y := a / m, b / m, a % m, b % m;
    assert a == q * m + x && b == p * m + y;
    Distribute(q, p, m);
    Distribute(q - p, p, m);
  }

  lemma ModMul(a: nat, b: nat, m: nat)
    requires m > 0
    ensures (a * b) % m == ((a % m) * (b % m)) % m
    ensures (a * b) % m == ((a % m) * b) % m
  {
    var q, p := a / m, b / m;
    var x, y := a % m, b % m;
    assert a == q * m + x && b == p * m + y;
    assert a * b == x * b + (q * b) * m by {
      assert (q * m + x) * b == q * m * b + x * b;
      assert q * m * b == (q * b) * m;
    }
    Shifted(x * b, q * b, m);
    assert x * b == x * y + (x * p) * m by {
      assert x * (p * m + y) == x * (p * m) + x * y;
      assert x * (p * m) == (x * p) * m;
    }
    Shifted(x * y, x * p, m);
  }

  /** A coarser modulus forgets a finer one. */
  lemma Coarser(a: int, m: nat, n: nat, k: nat)
    requires m > 0 && n > 0 && n == k * m
    ensures (a % n) % m == a % m
  {
    var q, r := a / n, a % n;
    assert a == q * n + r;
    assert q * n == (q * k) * m;
    Shifted(r, q * k, m);
  }

  lemma Wraps(a: int, w: nat, v: nat)
    requires w <= v
    ensures (a % Pow2(v)) % Pow2(w) == a % Pow2(w)
  {
    Pow2Add(v - w, w);
    Coarser(a, Pow2(w), Pow2(v), Pow2(v - w));
  }

  // Agreement

  /** Operators that only look at low bits may be applied before or after wrapping. */
  lemma ArithWraps(op: Op, l: nat, r: nat, w: nat)
    requires Folds(op) && op != RSHIFT && w <= 64
    requires op == LSHIFT ==> r < w
    ensures var m := Pow2(w);
            Arith(op, l, r, 128) % m == Arith(op, l % m, if op == LSHIFT then r else r % m, w)
  {
    hide *;
    var m := Pow2(w);
    ArithMeans(op, l, r, 128);
    ArithMeans(op, l % m, if op == LSHIFT then r else r % m, w);
    if op == ADD {
      Wraps(l + r, w, 128);
      ModAdd(l, r, m);
    } else if op == SUB {
      Wraps(l - r, w, 128);
      ModSub(l, r, m);
    } else if op == MUL {
      Wraps(l * r, w, 128);
      ModMul(l, r, m);
    } else if op == BOR {
      Wraps(Or(l, r), w, 128);
      OrMod(l, r, w);
      OrMod(l % m, r % m, w);
      Twice(l, m);
      Twice(r, m);
    } else if op == BAND {
      Wraps(And(l, r), w, 128);
      AndMod(l, r, w);
      AndMod(l % m, r % m, w);
      Twice(l, m);
      Twice(r, m);
    } else {
      OpsLeft(op);
      Wraps(l * Pow2(r), w, 128);
      ModMul(l, Pow2(r), m);
    }
  }

  lemma OpsLeft(op: Op)
    requires Folds(op) && op !in {ADD, SUB, MUL, BOR, BAND, RSHIFT}
    ensures op == LSHIFT
  {
  }

  lemma Twice(a: nat, m: nat)
    requires m > 0
    ensures (a % m) % m == a % m
  {
    Remainder(a % m, m, 0, a % m);
  }

  lemma ArithMeans(op: Op, l: nat, r: nat, bits: nat)
    ensures op == ADD ==> Arith(op, l, r, bits) == (l + r) % Pow2(bits)
    ensures op == SUB ==> Arith(op, l, r, bits) == (l - r) % Pow2(bits)
    ensures op == MUL ==> Arith(op, l, r, bits) == (l * r) % Pow2(bits)
    ensures op == BOR ==> Arith(op, l, r, bits) == Or(l, r) % Pow2(bits)
    ensures op == BAND ==> Arith(op, l, r, bits) == And(l, r) % Pow2(bits)
    ensures op == LSHIFT ==> Arith(op, l, r, bits) == (l * Pow2(r)) % Pow2(bits)
    ensures op == RSHIFT ==> Arith(op, l, r, bits) == l / Pow2(r)
  {
    hide Pow2, And, Or;
  }

  /** Shifting right after folding keeps the low bits exactly when no bit comes down into them. */
  lemma ShiftRight(l: nat, k: nat, w: nat)
    requires k < w
    ensures (l / Pow2(k)) % Pow2(w) == (l % Pow2(w)) / Pow2(k) <==> (l / Pow2(w)) % Pow2(k) == 0
  {
    var m, d, h := Pow2(w), Pow2(k), Pow2(w - k);
    Pow2Add(w - k, k);
    hide *;
    var q, s := DivMod(l, m);
    var x, t := DivMod(s, d);
    var u, v := DivMod(q, d);
    Divisions(l, m, d, h, q, s, x, t, u, v);
    Remainder(l, d, q * h + x, t);
    Remainder(q * h + x, m, u, v * h + x);
    Positive(v, h);
  }

  lemma DivMod(a: nat, d: nat) returns (q: nat, r: nat)
    requires d > 0
    ensures q == a / d && r == a % d && r < d
  {
    q, r := a / d, a % d;
  }

  lemma Positive(v: nat, h: nat)
    requires h > 0
    ensures v * h == 0 <==> v == 0
  {
  }

  lemma Divisions(l: nat, m: nat, d: nat, h: nat, q: nat, s: nat, x: nat, t: nat, u: nat, v: nat)
    requires m > 0 && d > 0 && h > 0 && m == h * d
    requires q == l / m && s == l % m && x == s / d && t == s % d && u == q / d && v == q % d
    ensures l == (q * h + x) * d + t && t < d
    ensures q * h + x == u * m + (v * h + x) && v * h + x < m
  {
    assert l == q * m + s && s == x * d + t && q == u * d + v;
    hide *;
    Nested(l, m, d, h, q, s, x, t);
    Split(m, d, h, q, u, v);
    HighBelow(m, d, h, s, x, t);
    BothBelow(m, d, h, v, x);
  }

  lemma Nested(l: nat, m: nat, d: nat, h: nat, q: nat, s: nat, x: nat, t: nat)
    requires l == q * m + s && s == x * d + t && m == h * d
    ensures l == (q * h + x) * d + t
  {
    Associate(q, h, d);
    Distribute(q * h, x, d);
  }

  lemma Split(m: nat, d: nat, h: nat, q: nat, u: nat, v: nat)
    requires q == u * d + v && m == h * d
    ensures q * h == u * m + v * h
  {
    Distribute(u * d, v, h);
    Associate(u, d, h);
    Commute(d, h);
  }

  lemma HighBelow(m: nat, d: nat, h: nat, s: nat, x: nat, t: nat)
    requires s == x * d + t && s < m && m == h * d && d > 0
    ensures x < h
  {
    if x >= h {
      Ordered(d, h, x);
      assert false;
    }
  }

  lemma BothBelow(m: nat, d: nat, h: nat, v: nat, x: nat)
    requires v < d && x < h && m == h * d
    ensures v * h + x < m
  {
    Distribute(v, 1, h);
    Ordered(h, v + 1, d);
    Commute(d, h);
  }

  lemma Associate(a: int, b: int, c: int)
    ensures a * (b * c) == (a * b) * c
  {
  }

  lemma Commute(a: int, b: int)
    ensures a * b == b * a
  {
  }

  /** Numbers compare by their high parts, and only by their low parts when those are equal. */
  lemma HighFirst(op: Op, l: nat, r: nat, m: nat)
    requires m > 0 && Comparison(op)
    ensures l / m != r / m ==> Compare(op, l, r) == Compare(op, l / m, r / m)
    ensures l / m == r / m ==> Compare(op, l, r) == Compare(op, l % m, r % m)
  {
    assert l == (l / m) * m + l % m && r == (r / m) * m + r % m;
    if l / m < r / m {
      Scaled(m, l / m, r / m);
      assert l < r;
    } else if r / m < l / m {
      Scaled(m, r / m, l / m);
      assert r < l;
    }
  }

  /** Folding a faithful expression and wrapping once is wrapping at every step. */
  lemma {:induction false} FoldWraps(e: Expr, w: nat)
    requires 0 < w <= 64 && Typed(e, w) && Faithful(e, w)
    ensures Fold(e).Some? && Fold(e).value.w == w
    ensures Run(e) == Some(Num(w, Fold(e).value.value % Pow2(w)))
  {
    match e
    case Lit(_, n) =>
      hide Pow2;
      Wraps(n, w, 64);
      Wraps(n, w, w);
    case Bin(op, lhs, rhs) =>
      FoldWraps(lhs, w);
      FoldWraps(rhs, w);
      FoldStep(op, lhs, rhs, w);
  }

  lemma FoldStep(op: Op, lhs: Expr, rhs: Expr, w: nat)
    requires 0 < w <= 64 && Typed(lhs, w) && Typed(rhs, w) && Faithful(Bin(op, lhs, rhs), w)
    requires Fold(lhs).Some? && Fold(lhs).value.w == w
    requires Fold(rhs).Some? && Fold(rhs).value.w == w
    requires Run(lhs) == Some(Num(w, Fold(lhs).value.value % Pow2(w)))
    requires Run(rhs) == Some(Num(w, Fold(rhs).value.value % Pow2(w)))
    ensures var e := Bin(op, lhs, rhs);
            && Fold(e).Some? && Fold(e).value.w == w
            && Run(e) == Some(Num(w, Fold(e).value.value % Pow2(w)))
  {
    hide *;
    FaithfulMeans(op, lhs, rhs, w);
    var l, r := Fold(lhs).value.value, Fold(rhs).value.value;
    if op == LSHIFT || op == RSHIFT {
      ShiftReady(op, lhs, rhs, w);
      WidthFits(r, w);
    }
    Cases(op, lhs, rhs, w, l, r);
    if op == RSHIFT {
      ShiftRight(l, r, w);
      ArithMeans(op, l, r, 128);
      ArithMeans(op, l % Pow2(w), r, w);
    } else {
      ReadyFolds(op, lhs, rhs, w);
      ArithWraps(op, l, r, w);
    }
  }

  lemma FaithfulMeans(op: Op, lhs: Expr, rhs: Expr, w: nat)
    requires Faithful(Bin(op, lhs, rhs), w)
    ensures Ready(op, lhs, rhs, w) && !IsComparison(op)
    ensures Fold(lhs).Some? && Fold(rhs).Some?
    ensures Harmless(op, Fold(lhs).value.value, Fold(rhs).value.value, w)
  {
    hide Harmless;
  }

  /** An amount below the width is not changed by wrapping. */
  lemma WidthFits(r: nat, w: nat)
    requires r < w
    ensures r % Pow2(w) == r
  {
    Below(w);
    Remainder(r, Pow2(w), 0, r);
  }

  lemma {:induction false} Below(w: nat)
    ensures w < Pow2(w)
  {
    if w > 0 {
      Below(w - 1);
    }
  }

  /** Over faithful operands, folding an operator agrees with running it exactly when it is harmless. */
  lemma FoldAgreesExactly(op: Op, lhs: Expr, rhs: Expr, w: nat)
    requires 0 < w <= 64 && Typed(lhs, w) && Typed(rhs, w)
    requires Ready(op, lhs, rhs, w)
    ensures var e := Bin(op, lhs, rhs);
            && Fold(e).Some? && Run(e).Some?
            && (Agrees(Fold(e).value, Run(e).value)
                <==> Harmless(op, Fold(lhs).value.value, Fold(rhs).value.value, w))
  {
    hide *;
    ReadyMeans(op, lhs, rhs, w);
    FoldWraps(lhs, w);
    FoldWraps(rhs, w);
    var l, r := Fold(lhs).value.value, Fold(rhs).value.value;
    if op == LSHIFT || op == RSHIFT {
      ShiftReady(op, lhs, rhs, w);
      WidthFits(r, w);
    }
    Cases(op, lhs, rhs, w, l, r);
    Wraps(Fold(Bin(op, lhs, rhs)).value.value, w, 64);
    if IsComparison(op) {
      IsComparisonMeans(op);
      HighFirst(op, l, r, Pow2(w));
      OneFits(w);
    } else if op == RSHIFT {
      ShiftRight(l, r, w);
      ArithMeans(op, l, r, 128);
      ArithMeans(op, l % Pow2(w), r, w);
    } else {
      ReadyFolds(op, lhs, rhs, w);
      ArithWraps(op, l, r, w);
    }
  }

  lemma IsComparisonMeans(op: Op)
    requires IsComparison(op)
    ensures Comparison(op)
  {
  }

  lemma ShiftReady(op: Op, lhs: Expr, rhs: Expr, w: nat)
    requires Ready(op, lhs, rhs, w) && (op == LSHIFT || op == RSHIFT)
    ensures Fold(rhs).Some? && Fold(rhs).value.value < w
  {
  }

  lemma ReadyFolds(op: Op, lhs: Expr, rhs: Expr, w: nat)
    requires Ready(op, lhs, rhs, w) && !IsComparison(op)
    ensures Folds(op)
  {
  }

  lemma Cases(op: Op, lhs: Expr, rhs: Expr, w: nat, l: nat, r: nat)
    requires Ready(op, lhs, rhs, w) && Fold(lhs) == Some(Const(w, l)) && Fold(rhs) == Some(Const(w, r))
    requires Run(lhs) == Some(Num(w, l % Pow2(w))) && Run(rhs) == Some(Num(w, r % Pow2(w)))
    requires (op == LSHIFT || op == RSHIFT) ==> r % Pow2(w) == r
    ensures Fold(Bin(op, lhs, rhs)).Some? && Run(Bin(op, lhs, rhs)).Some?
    ensures var m := Pow2(w);
            var c, v := Fold(Bin(op, lhs, rhs)).value, Run(Bin(op, lhs, rhs)).value;
            if IsComparison(op) then
              && Comparison(op)
              && c.value == (if Compare(op, l, r) then 1 else 0)
              && (Agrees(c, v) <==> (c.value % Pow2(64) % m == if Compare(op, l % m, r % m) then 1 else 0))
              && (Harmless(op, l, r, w) <==>
                    (l / m == r / m || Compare(op, l / m, r / m) == Compare(op, l % m, r % m)))
            else
              && c == Const(w, Arith(op, l, r, 128)) && v == Num(w, Arith(op, l % m, r % m, w))
              && (Agrees(c, v) <==> c.value % Pow2(64) % m == Arith(op, l % m, r % m, w))
              && (Harmless(op, l, r, w) <==> (op == RSHIFT ==> (l / m) % Pow2(r) == 0))
  {
    hide Pow2, Arith, Compare;
  }

  predicate IsComparison(op: Op) {
    Comparison(op)
  }

  lemma OneFits(w: nat)
    requires w > 0
    ensures 0 % Pow2(w) == 0 && 1 % Pow2(w) == 1
  {
    Below(w);
    Remainder(1, Pow2(w), 0, 1);
  }

  lemma ReadyMeans(op: Op, lhs: Expr, rhs: Expr, w: nat)
    requires Ready(op, lhs, rhs, w)
    ensures Faithful(lhs, w) && Faithful(rhs, w)
    ensures Fold(lhs).Some? && Fold(rhs).Some?
  {
  }

  /** Every folded value fits the width. */
  predicate Fits(e: Expr, w: nat) {
    && Fold(e).Some? && Fold(e).value.value < Pow2(w)
    && (e.Bin? ==> Fits(e.lhs, w) && Fits(e.rhs, w) && ShiftsWithin(e.op, Fold(e.rhs).value.value, w))
  }

  predicate NoComparison(e: Expr) {
    e.Bin? ==> !Comparison(e.op) && NoComparison(e.lhs) && NoComparison(e.rhs)
  }

  /** Where nothing exceeds the width, every operator is harmless. */
  lemma {:induction false} FittingIsFaithful(e: Expr, w: nat)
    requires Fits(e, w) && NoComparison(e)
    ensures Faithful(e, w)
  {
    if e.Bin? {
      FittingIsFaithful(e.lhs, w);
      FittingIsFaithful(e.rhs, w);
      hide Pow2, Arith;
      SmallIsHarmless(e.op, Fold(e.lhs).value.value, Fold(e.rhs).value.value, w);
    }
  }

  lemma SmallIsHarmless(op: Op, l: nat, r: nat, w: nat)
    requires l < Pow2(w) && r < Pow2(w)
    ensures Harmless(op, l, r, w)
  {
    hide Pow2, Compare;
    Remainder(l, Pow2(w), 0, l);
    Remainder(r, Pow2(w), 0, r);
    Remainder(0, Pow2(r), 0, 0);
  }

  /** Folding gives the run-time value of an expression in which nothing exceeds the width,
    * shifts and a comparison at the root included. */
  lemma FittingAgrees(op: Op, lhs: Expr, rhs: Expr, w: nat)
    requires 0 < w <= 64 && Typed(lhs, w) && Typed(rhs, w)
    requires Fits(Bin(op, lhs, rhs), w) && NoComparison(lhs) && NoComparison(rhs)
    ensures var e := Bin(op, lhs, rhs); Run(e).Some? && Agrees(Fold(e).value, Run(e).value)
  {
    FittingIsFaithful(lhs, w);
    FittingIsFaithful(rhs, w);
    hide Pow2, Arith;
    FoldAgreesExactly(op, lhs, rhs, w);
    SmallIsHarmless(op, Fold(lhs).value.value, Fold(rhs).value.value, w);
  }

  /** Expressions without right shifts and comparisons are always faithful. */
  predicate Modular(e: Expr, w: nat) {
    e.Bin? ==>
      && e.op in {ADD, SUB, MUL, BOR, BAND, LSHIFT}
      && Modular(e.lhs, w) && Modular(e.rhs, w)
      && Fold(e.rhs).Some? && ShiftsWithin(e.op, Fold(e.rhs).value.value, w)
  }

  lemma {:induction false} ModularIsFaithful(e: Expr, w: nat)
    requires Typed(e, w) && Modular(e, w)
    ensures Faithful(e, w) && Fold(e).Some? && Fold(e).value.w == w
  {
    if e.Bin? {
      ModularIsFaithful(e.lhs, w);
      ModularIsFaithful(e.rhs, w);
      hide Pow2, Arith;
    }
  }

  /** Whatever overflows on the way, they fold to what they compute. */
  lemma ModularAgrees(e: Expr, w: nat)
    requires 0 < w <= 64 && Typed(e, w) && Modular(e, w)
    ensures Fold(e).Some? && Run(e).Some? && Agrees(Fold(e).value, Run(e).value)
  {
    ModularIsFaithful(e, w);
    FoldWraps(e, w);
    hide Pow2;
    Wraps(Fold(e).value.value, w, 64);
  }

  // What the operators mean

  /** Literals and emitted constants are numbers modulo the width. */
  lemma LiteralsMean(w: nat, n: nat)
    requires w <= 64
    ensures Fold(Lit(w, n)) == Some(Const(w, n % Pow2(w)))
    ensures Run(Lit(w, n)) == Some(Num(w, n % Pow2(w)))
    ensures Emit(Const(w, n)) == n % Pow2(w)
  {
    hide Pow2;
    Wraps(n, w, 64);
  }

  lemma CompareMeans(x: nat, y: nat)
    ensures Comparison(EQ) && Compare(EQ, x, y) == (x == y)
    ensures Comparison(NE) && Compare(NE, x, y) == (x != y)
    ensures Comparison(LT) && Compare(LT, x, y) == (x < y)
    ensures Comparison(LE) && Compare(LE, x, y) == (x <= y)
    ensures Comparison(GT) && Compare(GT, x, y) == (x > y)
    ensures Comparison(GE) && Compare(GE, x, y) == (x >= y)
  {
  }

  lemma RunBin(op: Op, lhs: Expr, rhs: Expr, w: nat, x: nat, y: nat)
    requires Run(lhs) == Some(Num(w, x)) && Run(rhs) == Some(Num(w, y)) && Comparison(op)
    ensures Run(Bin(op, lhs, rhs)) == Some(Truth(Compare(op, x, y)))
  {
    hide Compare;
  }

  /** What the comparisons decide, at run time. */
  lemma RunCompares(lhs: Expr, rhs: Expr, w: nat, x: nat, y: nat)
    requires Run(lhs) == Some(Num(w, x)) && Run(rhs) == Some(Num(w, y))
    ensures Run(Bin(EQ, lhs, rhs)) == Some(Truth(x == y)) && Run(Bin(NE, lhs, rhs)) == Some(Truth(x != y))
    ensures Run(Bin(LT, lhs, rhs)) == Some(Truth(x < y)) && Run(Bin(LE, lhs, rhs)) == Some(Truth(x <= y))
    ensures Run(Bin(GT, lhs, rhs)) == Some(Truth(x > y)) && Run(Bin(GE, lhs, rhs)) == Some(Truth(x >= y))
  {
    hide *;
    CompareMeans(x, y);
    RunBin(EQ, lhs, rhs, w, x, y);
    RunBin(NE, lhs, rhs, w, x, y);
    RunBin(LT, lhs, rhs, w, x, y);
    RunBin(LE, lhs, rhs, w, x, y);
    RunBin(GT, lhs, rhs, w, x, y);
    RunBin(GE, lhs, rhs, w, x, y);
  }

  /** `e` runs to the number `n` of `w` bits. */
  predicate RunsTo(e: Expr, w: nat, n: int) {
    n >= 0 && Run(e) == Some(Num(w, n))
  }

  lemma RunIs(lhs: Expr, rhs: Expr, w: nat, x: nat, y: nat)
    requires RunsTo(lhs, w, x) && RunsTo(rhs, w, y)
    ensures Run(lhs) == Some(Num(w, x)) && Run(rhs) == Some(Num(w, y))
  {
  }

  lemma RunArith(op: Op, lhs: Expr, rhs: Expr, w: nat, x: nat, y: nat)
    requires Run(lhs) == Some(Num(w, x)) && Run(rhs) == Some(Num(w, y)) && Folds(op)
    ensures (op == LSHIFT || op == RSHIFT) && y >= w ==> Run(Bin(op, lhs, rhs)).None?
    ensures !((op == LSHIFT || op == RSHIFT) && y >= w) ==>
              Run(Bin(op, lhs, rhs)) == Some(Num(w, Arith(op, x, y, w)))
  {
    hide Arith, Compare;
  }

  /** One arithmetic operator at run time. */
  lemma RunStepsTo(op: Op, lhs: Expr, rhs: Expr, w: nat, x: nat, y: nat)
    requires Run(lhs) == Some(Num(w, x)) && Run(rhs) == Some(Num(w, y))
    ensures op == ADD ==> RunsTo(Bin(op, lhs, rhs), w, (x + y) % Pow2(w))
    ensures op == SUB ==> RunsTo(Bin(op, lhs, rhs), w, (x - y) % Pow2(w))
    ensures op == MUL ==> RunsTo(Bin(op, lhs, rhs), w, (x * y) % Pow2(w))
    ensures op == LSHIFT && y < w ==> RunsTo(Bin(op, lhs, rhs), w, (x * Pow2(y)) % Pow2(w))
    ensures op == RSHIFT && y < w ==> RunsTo(Bin(op, lhs, rhs), w, x / Pow2(y))
    ensures (op == LSHIFT || op == RSHIFT) && y >= w ==> Run(Bin(op, lhs, rhs)).None?
  {
    hide Arith, Run, Pow2, And, Or;
    if Folds(op) {
      RunArith(op, lhs, rhs, w, x, y);
      ArithMeans(op, x, y, w);
    }
  }

  /** What the arithmetic operators compute, at run time: sums, differences and products modulo the width,
    * shifts by powers of two. */
  lemma RunComputes(lhs: Expr, rhs: Expr, w: nat, x: nat, y: nat)
    requires RunsTo(lhs, w, x) && RunsTo(rhs, w, y)
    ensures RunsTo(Bin(ADD, lhs, rhs), w, (x + y) % Pow2(w))
    ensures RunsTo(Bin(SUB, lhs, rhs), w, (x - y) % Pow2(w))
    ensures RunsTo(Bin(MUL, lhs, rhs), w, (x * y) % Pow2(w))
    ensures y < w ==> RunsTo(Bin(LSHIFT, lhs, rhs), w, (x * Pow2(y)) % Pow2(w))
    ensures y < w ==> RunsTo(Bin(RSHIFT, lhs, rhs), w, x / Pow2(y))
    ensures y >= w ==> Run(Bin(LSHIFT, lhs, rhs)).None? && Run(Bin(RSHIFT, lhs, rhs)).None?
  {
    hide *;
    RunIs(lhs, rhs, w, x, y);
    RunStepsTo(ADD, lhs, rhs, w, x, y);
    RunStepsTo(SUB, lhs, rhs, w, x, y);
    RunStepsTo(MUL, lhs, rhs, w, x, y);
    RunStepsTo(LSHIFT, lhs, rhs, w, x, y);
    RunStepsTo(RSHIFT, lhs, rhs, w, x, y);
  }

  lemma DivMeans(lhs: Expr, rhs: Expr, w: nat, x: nat, y: nat)
    requires Run(lhs) == Some(Num(w, x)) && Run(rhs) == Some(Num(w, y))
    ensures y > 0 ==> Run(Bin(DIV, lhs, rhs)) == Some(Num(w, x / y))
    ensures y == 0 ==> Run(Bin(DIV, lhs, rhs)).None?
  {
    hide Arith, Compare, Pow2;
  }

  lemma SelectMeans(op: Op, lhs: Expr, rhs: Expr, w: nat, x: nat, y: nat)
    requires Run(lhs) == Some(Num(w, x)) && Run(rhs) == Some(Num(w, y)) && op in {MIN, MAX}
    ensures op == MIN ==> Run(Bin(op, lhs, rhs)) == Some(Num(w, if x < y then x else y))
    ensures op == MAX ==> Run(Bin(op, lhs, rhs)) == Some(Num(w, if x > y then x else y))
  {
    hide Arith, Compare, Pow2;
  }

  lemma NotFolded(op: Op, lhs: Expr, rhs: Expr)
    requires op in {DIV, MIN, MAX}
    ensures Fold(Bin(op, lhs, rhs)).None?
  {
    hide Arith, Compare, Pow2;
  }

  /** Division, minimum and maximum, which are computed at run time only. */
  lemma RunSelects(lhs: Expr, rhs: Expr, w: nat, x: nat, y: nat)
    requires RunsTo(lhs, w, x) && RunsTo(rhs, w, y)
    ensures y > 0 ==> RunsTo(Bin(DIV, lhs, rhs), w, x / y)
    ensures y == 0 ==> Run(Bin(DIV, lhs, rhs)).None?
    ensures RunsTo(Bin(MIN, lhs, rhs), w, if x <= y then x else y)
    ensures RunsTo(Bin(MAX, lhs, rhs), w, if x >= y then x else y)
    ensures Fold(Bin(DIV, lhs, rhs)).None? && Fold(Bin(MIN, lhs, rhs)).None? && Fold(Bin(MAX, lhs, rhs)).None?
  {
    hide Run, Fold, Pow2, Or, And;
    RunIs(lhs, rhs, w, x, y);
    DivMeans(lhs, rhs, w, x, y);
    SelectMeans(MIN, lhs, rhs, w, x, y);
    SelectMeans(MAX, lhs, rhs, w, x, y);
    NotFolded(DIV, lhs, rhs);
    NotFolded(MIN, lhs, rhs);
    NotFolded(MAX, lhs, rhs);
  }

  /** `e` folds to the payload `n`. */
  predicate FoldsTo(e: Expr, w: nat, n: int) {
    n >= 0 && Fold(e) == Some(Const(w, n))
  }

  /** What the comparisons decide, at compile time: one for true, zero for false. */
  lemma FoldCompares(lhs: Expr, rhs: Expr, w: nat, x: nat, y: nat)
    requires FoldsTo(lhs, w, x) && FoldsTo(rhs, w, y)
    ensures FoldsTo(Bin(EQ, lhs, rhs), w, 1) <==> x == y
    ensures FoldsTo(Bin(NE, lhs, rhs), w, 1) <==> x != y
    ensures FoldsTo(Bin(LT, lhs, rhs), w, 1) <==> x < y
    ensures FoldsTo(Bin(LE, lhs, rhs), w, 1) <==> x <= y
    ensures FoldsTo(Bin(GT, lhs, rhs), w, 1) <==> x > y
    ensures FoldsTo(Bin(GE, lhs, rhs), w, 1) <==> x >= y
    ensures forall op | op in {EQ, NE, LT, LE, GT, GE} ::
              FoldsTo(Bin(op, lhs, rhs), w, 1) || FoldsTo(Bin(op, lhs, rhs), w, 0)
  {
  }

  lemma FoldArith(op: Op, lhs: Expr, rhs: Expr, w: nat, x: nat, y: nat)
    requires Fold(lhs) == Some(Const(w, x)) && Fold(rhs) == Some(Const(w, y)) && Folds(op)
    ensures Fold(Bin(op, lhs, rhs)) == Some(Const(w, Arith(op, x, y, 128)))
  {
    hide Arith, Compare;
  }

  /** One arithmetic operator at compile time. */
  lemma FoldStepsTo(op: Op, lhs: Expr, rhs: Expr, w: nat, x: nat, y: nat)
    requires FoldsTo(lhs, w, x) && FoldsTo(rhs, w, y)
    ensures op == ADD ==> FoldsTo(Bin(op, lhs, rhs), w, (x + y) % Pow2(128))
    ensures op == SUB ==> FoldsTo(Bin(op, lhs, rhs), w, (x - y) % Pow2(128))
    ensures op == MUL ==> FoldsTo(Bin(op, lhs, rhs), w, (x * y) % Pow2(128))
    ensures op == LSHIFT ==> FoldsTo(Bin(op, lhs, rhs), w, (x * Pow2(y)) % Pow2(128))
    ensures op == RSHIFT ==> FoldsTo(Bin(op, lhs, rhs), w, x / Pow2(y))
  {
    hide Arith, Fold, Pow2, And, Or;
    if Folds(op) {
      FoldArith(op, lhs, rhs, w, x, y);
      ArithMeans(op, x, y, 128);
    }
  }

  /** What the arithmetic operators compute, at compile time: the same in 128 bits. */
  lemma FoldComputes(lhs: Expr, rhs: Expr, w: nat, x: nat, y: nat)
    requires FoldsTo(lhs, w, x) && FoldsTo(rhs, w, y)
    ensures FoldsTo(Bin(ADD, lhs, rhs), w, (x + y) % Pow2(128))
    ensures FoldsTo(Bin(SUB, lhs, rhs), w, (x - y) % Pow2(128))
    ensures FoldsTo(Bin(MUL, lhs, rhs), w, (x * y) % Pow2(128))
    ensures FoldsTo(Bin(LSHIFT, lhs, rhs), w, (x * Pow2(y)) % Pow2(128))
    ensures FoldsTo(Bin(RSHIFT, lhs, rhs), w, x / Pow2(y))
  {
    hide *;
    FoldStepsTo(ADD, lhs, rhs, w, x, y);
    FoldStepsTo(SUB, lhs, rhs, w, x, y);
    FoldStepsTo(MUL, lhs, rhs, w, x, y);
    FoldStepsTo(LSHIFT, lhs, rhs, w, x, y);
    FoldStepsTo(RSHIFT, lhs, rhs, w, x, y);
  }

  /** Or and and are bit by bit, at run time and at compile time; `d` is `2^i`. */
  lemma BitwiseMeans(lhs: Expr, rhs: Expr, w: nat, x: nat, y: nat, i: nat)
    requires Run(lhs) == Some(Num(w, x)) && Run(rhs) == Some(Num(w, y)) && i < w <= 64
    requires Fold(lhs) == Some(Const(w, x)) && Fold(rhs) == Some(Const(w, y))
    ensures Run(Bin(BOR, lhs, rhs)).Some? && Run(Bin(BAND, lhs, rhs)).Some?
    ensures Fold(Bin(BOR, lhs, rhs)).Some? && Fold(Bin(BAND, lhs, rhs)).Some?
    ensures var d := Pow2(i);
            var either, both := Run(Bin(BOR, lhs, rhs)).value, Run(Bin(BAND, lhs, rhs)).value;
            var either', both' := Fold(Bin(BOR, lhs, rhs)).value, Fold(Bin(BAND, lhs, rhs)).value;
            && either.Num? && both.Num?
            && (either.value / d % 2 == 1 <==> x / d % 2 == 1 || y / d % 2 == 1)
            && (both.value / d % 2 == 1 <==> x / d % 2 == 1 && y / d % 2 == 1)
            && (either'.value / d % 2 == 1 <==> x / d % 2 == 1 || y / d % 2 == 1)
            && (both'.value / d % 2 == 1 <==> x / d % 2 == 1 && y / d % 2 == 1)
  {
    BitwiseRuns(lhs, rhs, w, x, y);
    hide *;
    BitOr(x, y, i);
    BitAnd(x, y, i);
    BitMod(Or(x, y), w, i);
    BitMod(And(x, y), w, i);
    BitMod(Or(x, y), 128, i);
    BitMod(And(x, y), 128, i);
    BitIs(x, i);
    BitIs(y, i);
    BitIs(Or(x, y) % Pow2(w), i);
    BitIs(And(x, y) % Pow2(w), i);
    BitIs(Or(x, y) % Pow2(128), i);
    BitIs(And(x, y) % Pow2(128), i);
  }

  lemma BitwiseRuns(lhs: Expr, rhs: Expr, w: nat, x: nat, y: nat)
    requires Run(lhs) == Some(Num(w, x)) && Run(rhs) == Some(Num(w, y))
    requires Fold(lhs) == Some(Const(w, x)) && Fold(rhs) == Some(Const(w, y))
    ensures Run(Bin(BOR, lhs, rhs)) == Some(Num(w, Or(x, y) % Pow2(w)))
    ensures Run(Bin(BAND, lhs, rhs)) == Some(Num(w, And(x, y) % Pow2(w)))
    ensures Fold(Bin(BOR, lhs, rhs)) == Some(Const(w, Or(x, y) % Pow2(128)))
    ensures Fold(Bin(BAND, lhs, rhs)) == Some(Const(w, And(x, y) % Pow2(128)))
  {
    hide Pow2, Or, And;
  }

  /** `(255 + 1) >> 1` in eight bits: 128 when folded, 0 when run. */
  lemma FoldingWidens()
    ensures var e := Bin(RSHIFT, Bin(ADD, Lit(8, 255), Lit(8, 1)), Lit(8, 1));
            && Fold(e) == Some(Const(8, 128)) && Emit(Const(8, 128)) == 128
            && Run(e) == Some(Num(8, 0))
  {
    hide *;
    Summed();
    Halved(Bin(ADD, Lit(8, 255), Lit(8, 1)));
    Narrow(128);
    EightBits();
    Emitted(128);
  }

  lemma Emitted(n: nat)
    ensures Emit(Const(8, n)) == n % Pow2(64) % Pow2(8)
  {
  }

  lemma Summed()
    ensures Fold(Bin(ADD, Lit(8, 255), Lit(8, 1))) == Some(Const(8, 256))
    ensures Run(Bin(ADD, Lit(8, 255), Lit(8, 1))) == Some(Num(8, 0))
  {
    hide Pow2, And, Or;
    EightBits();
    Narrow(256);
    Literal(255);
    Literal(1);
  }

  lemma EightBits()
    ensures Pow2(8) == 256 && Pow2(1) == 2
  {
  }

  lemma Literal(n: nat)
    requires n < 256
    ensures Fold(Lit(8, n)) == Some(Const(8, n)) && Run(Lit(8, n)) == Some(Num(8, n))
  {
    hide Pow2;
    EightBits();
    Narrow(n);
  }

  lemma Halved(s: Expr)
    requires Fold(s) == Some(Const(8, 256)) && Run(s) == Some(Num(8, 0))
    ensures Fold(Bin(RSHIFT, s, Lit(8, 1))) == Some(Const(8, 128))
    ensures Run(Bin(RSHIFT, s, Lit(8, 1))) == Some(Num(8, 0))
  {
    hide Pow2, And, Or;
    EightBits();
    Literal(1);
  }

  lemma Narrow(n: nat)
    requires n <= 256
    ensures n % Pow2(64) == n && n % Pow2(128) == n
  {
    assert Pow2(9) == 512;
    Pow2Monotone(9, 64);
    Pow2Monotone(64, 128);
    hide Pow2;
    Remainder(n, Pow2(64), 0, n);
    Remainder(n, Pow2(128), 0, n);
  }
}
