// Formatting in two passes, one to measure and one to write, and the
// decimal writers.
module Format {

  import opened Outcomes
  import opened Bits
  import opened Growth

  // Decimal text

  function Digit(d: nat): char
    requires d < 10
  {
    "0123456789"[d]
  }

  function Digits(n: nat): (s: string)
    ensures |s| > 0
  {
    if n < 10 then [Digit(n)] else Digits(n / 10) + [Digit(n % 10)]
  }

  function Worth(c: char): nat {
    if '0' <= c <= '9' then c as int - '0' as int else 0
  }

  /** Reads decimal digits. */
  function Read(s: string): nat {
    if s == [] then 0 else 10 * Read(s[..|s| - 1]) + Worth(s[|s| - 1])
  }

  /** Decimal text reads back as the number, and has no leading zero. */
  lemma {:induction false} ReadBack(n: nat)
    ensures Read(Digits(n)) == n
    ensures forall i | 0 <= i < |Digits(n)| :: '0' <= Digits(n)[i] <= '9'
    ensures n > 0 ==> Digits(n)[0] != '0'
    ensures n == 0 ==> Digits(n) == "0"
  {
    DigitWorth(n % 10);
    if n < 10 {
      ReadAppend([], Digit(n));
      assert [] + [Digit(n)] == Digits(n);
    } else {
      ReadBack(n / 10);
      hide Read, Worth, Digit;
      ReadAppend(Digits(n / 10), Digit(n % 10));
    }
  }

  lemma DigitWorth(d: nat)
    requires d < 10
    ensures '0' <= Digit(d) <= '9' && Worth(Digit(d)) == d && (d > 0 ==> Digit(d) != '0')
  {
  }

  lemma ReadAppend(s: string, c: char)
    ensures Read(s + [c]) == 10 * Read(s) + Worth(c)
  {
    assert (s + [c])[..|s|] == s;
  }

  function Pow10(k: nat): nat {
    if k == 0 then 1 else 10 * Pow10(k - 1)
  }

  lemma {:induction false} DigitCount(n: nat, k: nat)
    requires k > 0 && n < Pow10(k)
    ensures |Digits(n)| <= k
  {
    if n >= 10 {
      assert k > 1;
      DigitCount(n / 10, k - 1);
    }
  }

  /** A 64-bit number has at most 20 digits. */
  lemma Uint64Digits(n: nat)
    requires n < 0x1_0000_0000_0000_0000
    ensures |Digits(n)| <= 20
  {
    assert Pow10(5) == 100000;
    assert Pow10(10) == 100000 * Pow10(5);
    assert Pow10(15) == 100000 * Pow10(10);
    assert Pow10(20) == 100000 * Pow10(15);
    DigitCount(n, 20);
  }

  /** The digits that remain to be written when `d` is left of `n`, in front of those already there. */
  lemma {:induction false} DigitsStep(d: nat, done: string)
    ensures d >= 10 ==> Digits(d) + done == Digits(d / 10) + ([Digit(d % 10)] + done)
    ensures d < 10 ==> Digits(d) + done == [Digit(d % 10)] + done
  {
    if d >= 10 {
      assert Digits(d) + done == Digits(d / 10) + ([Digit(d % 10)] + done);
    }
  }

  /** Text of a number, filled into a buffer from its end. */
  method Decimal(dec: nat, neg: bool) returns (s: string)
    requires dec < 0x1_0000_0000_0000_0000
    ensures s == (if neg then "-" else "") + Digits(dec)
  {
    var buf := new char[65];
    Uint64Digits(dec);
    var p: int := 64;
    var d := dec;
    ghost var all := Digits(dec);
    DigitsStep(d, []);
    buf[p] := Digit(d % 10);
    p := p - 1;
    d := d / 10;
    assert buf[65..] == [];
    assert all + [] == all;
    assert buf[p + 1..] == [Digit(dec % 10)];
    while d > 0
      invariant 0 <= p < 64
      invariant 64 - p <= 20
      invariant d > 0 ==> all == Digits(d) + buf[p + 1..]
      invariant d == 0 ==> all == buf[p + 1..]
      decreases d
    {
      DigitsStep(d, buf[p + 1..]);
      ghost var done := buf[p + 1..];
      assert |all| <= 20 && |all| == |Digits(d)| + |done|;
      buf[p] := Digit(d % 10);
      assert buf[p..] == [Digit(d % 10)] + done;
      p := p - 1;
      d := d / 10;
    }
    ghost var done := buf[p + 1..];
    buf[p] := '-';
    assert buf[p + 1..] == done;
    assert buf[p..] == "-" + done;
    p := p + if neg then 0 else 1;
    s := buf[p..];
  }

  /** Appends to a growing buffer, until one append finds no memory. */
  class StringBuilder {
    const buffer: Array<char>
    var valid: bool

    ghost predicate Valid()
      reads this, buffer
    {
      buffer.Valid()
    }

    ghost function Contents(): string
      reads this, buffer, buffer.data
      requires Valid()
    {
      buffer.Contents()
    }

    constructor ()
      ensures Valid() && valid && Contents() == [] && fresh(buffer) && fresh(buffer.data)
    {
      buffer := new Array<char>();
      valid := true;
    }

    method AppendChar(ch: char, host: Host) returns (r: Outcome<nat>)
      requires Valid() && 3 * (buffer.length + 1) < W
      modifies this, buffer, buffer.data
      ensures Valid() && (buffer.data == old(buffer.data) || fresh(buffer.data))
      ensures !old(valid) ==> r.Failed?
      ensures old(valid) ==>
        r == if old(buffer.length) + 1 < old(buffer.data.Length) then Done(old(buffer.data.Length))
             else Room(host, old(buffer.length) + 1)
      ensures Contents() == if r.Done? then old(Contents()) + [ch] else old(Contents())
      ensures valid == (old(valid) && !r.Failed?)
    {
      if !valid {
        return Failed;
      }
      r := buffer.PushBack(ch, host);
      valid := !r.Failed?;
    }

    /** Measures the number, makes room for it, and fills that from the end. Unlike the others this does
      * not ask whether an earlier append failed, except for zero. */
    method AppendUint(value: nat, host: Host) returns (r: Outcome<nat>)
      requires Valid() && 3 * (buffer.length + 1) < W
      modifies this, buffer, buffer.data
      ensures Valid() && (buffer.data == old(buffer.data) || fresh(buffer.data))
      ensures value == 0 && !old(valid) ==> r.Failed?
      ensures value > 0 || old(valid) ==>
        var n := old(buffer.length) + |Digits(value)|;
        r == if n < old(buffer.data.Length) then Done(old(buffer.data.Length)) else Room(host, n)
      ensures Contents() == if r.Done? then old(Contents()) + Digits(value) else old(Contents())
      ensures valid == (old(valid) && !r.Failed?)
    {
      hide Next, Term, Room;
      if value == 0 {
        r := AppendChar('0', host);
      } else {
        r := AppendDigits(value, host);
      }
    }

    method AppendDigits(value: nat, host: Host) returns (r: Outcome<nat>)
      requires Valid() && value > 0
      modifies this, buffer, buffer.data
      ensures Valid() && (buffer.data == old(buffer.data) || fresh(buffer.data))
      ensures var n := old(buffer.length) + |Digits(value)|;
        r == if n < old(buffer.data.Length) then Done(old(buffer.data.Length)) else Room(host, n)
      ensures Contents() == if r.Done? then old(Contents()) + Digits(value) else old(Contents())
      ensures valid == (old(valid) && !r.Failed?)
    {
      hide Term, Room, Digits, Grow;
      var length := CountDigits(value);
      var offset := buffer.length;
      ghost var before := Contents();
      r := buffer.Resize(offset + length, '\0', host);
      valid := valid && !r.Failed?;
      if !r.Done? {
        return;
      }
      assert buffer.data[..offset] == before;
      Fill(buffer.data, offset, length, value);
      assert Contents() == buffer.data[..offset] + buffer.data[offset..offset + length];
    }
  }

  /** Writes the digits into the room made for them, last one first. */
  method Fill(fill: array<char>, offset: nat, digits: nat, value: nat)
    requires digits == |Digits(value)| && offset + digits <= fill.Length && value > 0
    modifies fill
    ensures fill[..offset] == old(fill[..offset])
    ensures fill[offset..offset + digits] == Digits(value)
  {
    var length: nat, v: nat := digits, value;
    while v > 0
      invariant fill[..offset] == old(fill[..offset])
      invariant length <= digits
      invariant v > 0 ==> length == |Digits(v)| && Digits(value) == Digits(v) + fill[offset + length..offset + digits]
      invariant v == 0 ==> length == 0 && Digits(value) == fill[offset..offset + digits]
      decreases v
    {
      ghost var done := fill[offset + length..offset + digits];
      DigitsStep(v, done);
      DigitsStep(v, []);
      hide Digits, Digit;
      length := length - 1;
      fill[offset + length] := Digit(v % 10);
      assert fill[offset + length..offset + digits] == [Digit(v % 10)] + done;
      v := v / 10;
    }
  }

  method CountDigits(value: nat) returns (length: nat)
    requires value > 0
    ensures length == |Digits(value)|
  {
    var v: nat := value;
    length := 0;
    while v > 0
      invariant v > 0 ==> length + |Digits(v)| == |Digits(value)|
      invariant v == 0 ==> length == |Digits(value)|
      decreases v
    {
      DigitsStep(v, []);
      length := length + 1;
      v := v / 10;
    }
  }

  // Formats

  /** Arguments as they reach the variadic function. */
  datatype Arg = Str(s: string) | View(s: string) | Sint(v: int) | Uint(u: nat) | Size(z: nat)

  /** What a format expands to, and whether every specifier is known. */
  datatype Output = Output(text: string, ok: bool)

  predicate Converts(c: char) {
    c in {'s', 'S', 'd', 'u', 'z'}
  }

  /** The argument fits the specifier, and integers their widths. */
  predicate Fits(c: char, a: Arg) {
    match a
    case Str(s) => c == 's' && '\0' !in s
    case View(_) => c == 'S'
    case Sint(v) => c == 'd' && -0x8000_0000 < v < 0x8000_0000
    case Uint(v) => c == 'u' && v < 0x1_0000_0000
    case Size(v) => c == 'z' && v < 0x1_0000_0000_0000_0000
  }

  /** Specifiers are complete, each has an argument that fits it, and none is `%p`. */
  predicate Matches(fmt: string, args: seq<Arg>) {
    if fmt == "" then true
    else if fmt[0] != '%' then Matches(fmt[1..], args)
    else
      && |fmt| > 1 && fmt[1] != 'p'
      && (fmt[1] == 'z' ==> |fmt| > 2)
      && if !Converts(fmt[1]) then fmt[1] == '%' ==> Matches(fmt[2..], args)
         else if fmt[1] == 'z' && fmt[2] != 'u' then true
         else args != [] && Fits(fmt[1], args[0]) && Matches(fmt[Width(fmt)..], args[1..])
  }

  /** Length of the specifier in front. */
  function Width(fmt: string): nat
    requires |fmt| > 1
  {
    if fmt[1] == 'z' then 3 else 2
  }

  function Text(a: Arg): string {
    match a
    case Str(s) => s
    case View(s) => s
    case Sint(v) => (if v < 0 then "-" else "") + Digits(if v < 0 then -v else v)
    case Uint(v) => Digits(v)
    case Size(v) => Digits(v)
  }

  function Expand(fmt: string, args: seq<Arg>): Output
    requires Matches(fmt, args)
  {
    if fmt == "" then Output("", true)
    else if fmt[0] != '%' then Before([fmt[0]], Expand(fmt[1..], args))
    else if fmt[1] == '%' then Before("%", Expand(fmt[2..], args))
    else if !Converts(fmt[1]) || (fmt[1] == 'z' && fmt[2] != 'u') then Output("", false)
    else Before(Text(args[0]), Expand(fmt[Width(fmt)..], args[1..]))
  }

  function Before(s: string, o: Output): Output {
    Output(s + o.text, o.ok)
  }

  /** Signed text reads back, sign first. */
  lemma SignedReadsBack(v: int)
    ensures var s := Text(Sint(v));
            if v < 0 then s[0] == '-' && Read(s[1..]) == -v else s[0] != '-' && Read(s) == v
  {
    ReadBack(if v < 0 then -v else v);
    if v < 0 {
      assert Text(Sint(v))[1..] == Digits(-v);
    } else {
      assert Text(Sint(v)) == Digits(v);
    }
  }

  predicate AllDigits(s: string) {
    forall i | 0 <= i < |s| :: '0' <= s[i] <= '9'
  }

  /** `s` is the decimal text of `v`: digits that read as it, without leading zeros, after a sign if negative. */
  predicate Numeral(s: string, v: int) {
    if v < 0 then s != "" && s[0] == '-' && s[1..] != "" && Numeral(s[1..], -v)
    else s != "" && AllDigits(s) && Read(s) == v && (s[0] == '0' ==> s == "0")
  }

  lemma UnsignedNumeral(n: nat)
    ensures Numeral(Digits(n), n) && Digits(n) != "" && Digits(n)[0] != '-'
  {
    ReadBack(n);
  }

  /** There is one decimal text, and it is the one that is written. */
  lemma OneNumeral(s: string, v: int)
    ensures Numeral(s, v) <==> s == Text(Sint(v))
  {
    var n := if v < 0 then -v else v;
    UnsignedNumeral(n);
    SignedText(v);
    hide Digits, Read, Text, AllDigits;
    if v < 0 {
      assert Text(Sint(v))[1..] == Digits(n);
      if Numeral(s, v) {
        UnsignedUnique(s[1..], n);
        assert s == "-" + s[1..];
      }
    } else if Numeral(s, v) {
      UnsignedUnique(s, n);
    }
  }

  lemma SignedText(v: int)
    ensures Text(Sint(v)) == if v < 0 then "-" + Digits(-v) else Digits(v)
  {
    assert v >= 0 ==> "" + Digits(v) == Digits(v);
  }

  lemma {:induction false} UnsignedUnique(s: string, n: nat)
    requires Numeral(s, n)
    ensures s == Digits(n)
    decreases |s|
  {
    var k := |s| - 1;
    ReadAppend(s[..k], s[k]);
    assert s == s[..k] + [s[k]];
    LastDigit(s[k]);
    if k > 0 {
      assert s[..k][0] == s[0] != '0';
      Positive(s[..k]);
      UnsignedUnique(s[..k], n / 10);
    } else {
      assert s[..k] == [] && Read([]) == 0;
    }
  }

  lemma LastDigit(c: char)
    requires '0' <= c <= '9'
    ensures Worth(c) < 10 && Digit(Worth(c)) == c
  {
  }

  lemma {:induction false} Positive(s: string)
    requires s != "" && AllDigits(s) && s[0] != '0'
    ensures Read(s) > 0
    decreases |s|
  {
    if |s| > 1 {
      assert s[..|s| - 1][0] == s[0];
      Positive(s[..|s| - 1]);
    }
  }

  lemma Specified(fmt: string, a: Arg, rest: string, args: seq<Arg>)
    requires Matches(rest, args) && |fmt| >= 2 && fmt[0] == '%' && Known(fmt) && Fits(fmt[1], a)
    requires |fmt| == Width(fmt)
    ensures Matches(fmt + rest, [a] + args)
    ensures Expand(fmt + rest, [a] + args) == Before(Text(a), Expand(rest, args))
  {
    assert (fmt + rest)[Width(fmt)..] == rest && ([a] + args)[1..] == args;
  }

  /** Strings and views are copied. */
  lemma StringSpecifiers(s: string, rest: string, args: seq<Arg>)
    requires Matches(rest, args)
    ensures Matches("%S" + rest, [View(s)] + args)
    ensures var tail := Expand(rest, args); Expand("%S" + rest, [View(s)] + args) == Output(s + tail.text, tail.ok)
    ensures '\0' !in s ==>
              && Matches("%s" + rest, [Str(s)] + args)
              && var tail := Expand(rest, args); Expand("%s" + rest, [Str(s)] + args) == Output(s + tail.text, tail.ok)
  {
    hide Expand, Matches;
    Specified("%S", View(s), rest, args);
    if '\0' !in s {
      Specified("%s", Str(s), rest, args);
    }
  }

  /** A number, of any specifier that takes one, is written as its decimal text. */
  lemma NumberSpecifiers(v: int, rest: string, args: seq<Arg>)
    requires Matches(rest, args)
    ensures -0x8000_0000 < v < 0x8000_0000 ==> Writes("%d", Sint(v), v, rest, args)
    ensures 0 <= v < 0x1_0000_0000 ==> Writes("%u", Uint(v), v, rest, args)
    ensures 0 <= v < 0x1_0000_0000_0000_0000 ==> Writes("%zu", Size(v), v, rest, args)
  {
    hide Expand, Matches, Numeral, Digits;
    OneNumeral(Text(Sint(v)), v);
    if -0x8000_0000 < v < 0x8000_0000 {
      Specified("%d", Sint(v), rest, args);
    }
    if 0 <= v < 0x1_0000_0000 {
      UnsignedNumeral(v);
      Specified("%u", Uint(v), rest, args);
    }
    if 0 <= v < 0x1_0000_0000_0000_0000 {
      UnsignedNumeral(v);
      Specified("%zu", Size(v), rest, args);
    }
  }

  /** A format of the one specifier `fmt` and `rest` begins with the decimal text of `v` when given `a`. */
  ghost predicate Writes(fmt: string, a: Arg, v: int, rest: string, args: seq<Arg>)
    requires Matches(rest, args)
  {
    && Matches(fmt + rest, [a] + args)
    && var tail := Expand(rest, args);
    exists text :: Numeral(text, v) && Expand(fmt + rest, [a] + args) == Output(text + tail.text, tail.ok)
  }

  /** Other characters stand for themselves, `%%` for one `%`; a specifier that is not known ends the text. */
  lemma PlainText(c: char, rest: string, args: seq<Arg>)
    requires Matches(rest, args)
    ensures var tail := Expand(rest, args);
            && (c != '%' ==> Matches([c] + rest, args) && Expand([c] + rest, args) == Output([c] + tail.text, tail.ok))
            && Matches("%%" + rest, args) && Expand("%%" + rest, args) == Output("%" + tail.text, tail.ok)
    ensures c !in "sSduzp%" ==> Matches(['%', c] + rest, args) && Expand(['%', c] + rest, args) == Output("", false)
  {
    assert ([c] + rest)[1..] == rest && ("%%" + rest)[2..] == rest;
  }

  /** A pass so far: nothing is written without a destination, and all of `text` with one. */
  ghost predicate Holds(dst: array?<char>, len: nat, text: string)
    reads dst
  {
    && len == |text|
    && (dst != null ==> len <= dst.Length && dst[..len] == text)
  }

  method Put(dst: array?<char>, len: nat, ch: char, ghost text: string) returns (len': nat)
    requires Holds(dst, len, text) && (dst != null ==> len < dst.Length)
    modifies dst
    ensures Holds(dst, len', text + [ch])
    ensures dst != null ==> len' <= dst.Length && dst[len'..] == old(dst[..])[len'..]
  {
    if dst != null {
      dst[len] := ch;
    }
    len' := len + 1;
  }

  method PutAll(dst: array?<char>, len: nat, s: string, ghost text: string) returns (len': nat)
    requires Holds(dst, len, text) && (dst != null ==> len + |s| <= dst.Length)
    modifies dst
    ensures Holds(dst, len', text + s)
    ensures dst != null ==> len' <= dst.Length && dst[len'..] == old(dst[..])[len'..]
  {
    len' := len;
    for i := 0 to |s|
      invariant Holds(dst, len', text + s[..i])
      invariant dst != null ==> dst[len'..] == old(dst[..])[len'..]
    {
      ghost var before := if dst != null then dst[..] else [];
      len' := Put(dst, len', s[i], text + s[..i]);
      assert text + s[..i] + [s[i]] == text + s[..i + 1];
      assert dst != null ==> before[len'..] == old(dst[..])[len'..];
    }
    assert s[..|s|] == s;
  }

  /** One turn of the pass: what is in front of `fmt`, and how much of the format and arguments it uses. */
  lemma ExpandStep(fmt: string, args: seq<Arg>)
    requires Matches(fmt, args) && fmt != ""
    ensures fmt[0] != '%' ==> Matches(fmt[1..], args) && Expand(fmt, args) == Before([fmt[0]], Expand(fmt[1..], args))
    ensures fmt[0] == '%' ==> |fmt| > 1 && (fmt[1] == 'z' ==> |fmt| > 2)
    ensures fmt[0] == '%' && fmt[1] == '%' ==>
              Matches(fmt[2..], args) && Expand(fmt, args) == Before("%", Expand(fmt[2..], args))
    ensures fmt[0] == '%' && fmt[1] != '%' && !Known(fmt) ==> Expand(fmt, args) == Output("", false)
    ensures fmt[0] == '%' && fmt[1] != '%' && Known(fmt) ==>
              && args != [] && Fits(fmt[1], args[0]) && Width(fmt) <= |fmt| && Matches(fmt[Width(fmt)..], args[1..])
              && Expand(fmt, args) == Before(Text(args[0]), Expand(fmt[Width(fmt)..], args[1..]))
  {
  }

  lemma ExpandNone(args: seq<Arg>)
    ensures Matches("", args) && Expand("", args) == Output("", true)
  {
  }

  predicate Known(fmt: string) {
    |fmt| > 1 && Converts(fmt[1]) && (fmt[1] == 'z' ==> |fmt| > 2 && fmt[2] == 'u')
  }

  /** There is room for a piece of a text that fits. */
  lemma Assemble(dst: array?<char>, n: nat, a: string, b: string, o: Output)
    requires Holds(dst, n, a)
    ensures Before(a, Before(b, o)) == Before(a + b, o)
    ensures n == |a| && (dst != null ==> n <= dst.Length && dst[..n] == a)
    ensures n + |b| <= |Before(a, Before(b, o)).text|
    ensures b == "" ==> Before(a, o) == Output(a + o.text, o.ok)
    ensures o.text == "" ==> Before(a, o) == Output(a, o.ok)
  {
    assert b == "" ==> a + b == a;
  }

  /** One pass. Without a destination it only measures; with one, it writes exactly what it measures. */
  method FormatVa(dst: array?<char>, fmt: string, args: seq<Arg>) returns (ok: bool, n: nat)
    requires Matches(fmt, args)
    requires dst != null ==> |Expand(fmt, args).text| <= dst.Length
    modifies dst
    ensures ok == Expand(fmt, args).ok && n == |Expand(fmt, args).text|
    ensures dst != null ==> dst[..n] == Expand(fmt, args).text && dst[n..] == old(dst[n..])
  {
    hide *;
    ghost var text := "";
    ghost var whole := Expand(fmt, args);
    var i, k := 0, 0;
    n := 0;
    Start(dst, fmt, args);
    while i < |fmt|
      invariant i <= |fmt| && k <= |args| && Matches(fmt[i..], args[k..])
      invariant Holds(dst, n, text)
      invariant whole == Before(text, Expand(fmt[i..], args[k..]))
      invariant dst != null ==> n <= dst.Length && dst[n..] == old(dst[..])[n..]
      decreases |fmt| - i
    {
      ExpandStep(fmt[i..], args[k..]);
      if fmt[i] != '%' {
        Assemble(dst, n, text, [fmt[i]], Expand(fmt[i + 1..], args[k..]));
        n := Put(dst, n, fmt[i], text);
        text := text + [fmt[i]];
      } else {
        i := i + 1;
        if fmt[i] == '%' {
          Assemble(dst, n, text, "%", Expand(fmt[i + 1..], args[k..]));
          n := Put(dst, n, '%', text);
          text := text + "%";
        } else {
          if !Converts(fmt[i]) || (fmt[i] == 'z' && fmt[i + 1] != 'u') {
            Unknown(fmt[i - 1..]);
            Assemble(dst, n, text, "", Output("", false));
            return false, n;
          }
          KnownWidth(fmt[i - 1..]);
          var piece := Convert(args[k]);
          if fmt[i] == 'z' {
            i := i + 1;
          }
          Assemble(dst, n, text, piece, Expand(fmt[i + 1..], args[k + 1..]));
          n := PutAll(dst, n, piece, text);
          text := text + piece;
          k := k + 1;
        }
      }
      i := i + 1;
    }
    ExpandNone(args[k..]);
    assert fmt[i..] == "";
    Assemble(dst, n, text, "", Output("", true));
    return true, n;
  }

  lemma Start(dst: array?<char>, fmt: string, args: seq<Arg>)
    requires Matches(fmt, args)
    ensures Holds(dst, 0, "") && fmt[0..] == fmt && args[0..] == args
    ensures Expand(fmt, args) == Before("", Expand(fmt, args))
  {
    hide Expand;
  }

  lemma Unknown(fmt: string)
    requires |fmt| > 1 && (fmt[1] == 'z' ==> |fmt| > 2)
    requires !Converts(fmt[1]) || (fmt[1] == 'z' && fmt[2] != 'u')
    ensures !Known(fmt)
  {
  }

  lemma KnownWidth(fmt: string)
    requires |fmt| > 1 && Converts(fmt[1]) && (fmt[1] == 'z' ==> |fmt| > 2 && fmt[2] == 'u')
    ensures Known(fmt) && Width(fmt) == if fmt[1] == 'z' then 3 else 2
  {
  }

  /** The text of an argument, digit by digit for numbers. */
  method Convert(a: Arg) returns (piece: string)
    requires exists c :: Fits(c, a)
    ensures piece == Text(a)
  {
    match a
    case Str(s) => piece := s;
    case View(s) => piece := s;
    case Sint(v) => piece := Decimal(if v < 0 then -v else v, v < 0);
    case Uint(v) => piece := Decimal(v, false);
    case Size(v) => piece := Decimal(v, false);
  }

  /** Both passes: a buffer of the measured size, filled completely. Without memory for it there is no
    * text, as for an unknown specifier. */
  method Format(fmt: string, args: seq<Arg>, host: Host) returns (r: Outcome<string>)
    requires Matches(fmt, args)
    ensures var o := Expand(fmt, args);
            r == if !o.ok then Failed
                 else if o.text == "" || Room(host, |o.text|).Done? then Done(o.text)
                 else Room(host, |o.text|).Propagate()
  {
    hide Expand, Matches, Room, Next, Term;
    var ok, n := FormatVa(null, fmt, args);
    if !ok {
      return Failed;
    }
    var buf := new Array<char>();
    var sized := buf.Resize(n, '\0', host);
    if !sized.Done? {
      return sized.Propagate();
    }
    var ok', n' := FormatVa(buf.data, fmt, args);
    if !ok' {
      return Failed;
    }
    return Done(buf.data[..n']);
  }
}
