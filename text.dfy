/**
 * Character classes and the small scanning steps that the three line
 * shapes of analyze.py are built from: literal text, `\s*`, `\s+`, `\d+`
 * and `\S+`, each matched greedily at the front of the remaining text.
 */
module Text {

  datatype Option<+T> = None | Some(value: T) {
    predicate IsFailure() { None? }
    function PropagateFailure<U>(): Option<U> requires None? { None }
    function Extract(): T requires Some? { value }
  }

  /** What a scanning step recognised and the text left after it. */
  datatype Scan<+T> = Scan(value: T, rest: string)

  /** Python's `\s` on a str pattern: exactly the characters of str.isspace. */
  predicate IsSpace(c: char) {
    || c == ' '
    || '\t' <= c <= '\r'
    || '\U{1C}' <= c <= '\U{1F}'
    || c == '\U{85}'
    || c == '\U{A0}'
    || c == '\U{1680}'
    || '\U{2000}' <= c <= '\U{200A}'
    || c == '\U{2028}'
    || c == '\U{2029}'
    || c == '\U{202F}'
    || c == '\U{205F}'
    || c == '\U{3000}'
  }

  /** `\d`, restricted to the ASCII digits. */
  predicate IsDigit(c: char) { '0' <= c <= '9' }

  datatype Class = Digit | Space | NonSpace

  predicate In(c: char, k: Class) {
    match k
    case Digit => IsDigit(c)
    case Space => IsSpace(c)
    case NonSpace => !IsSpace(c)
  }

  predicate AllIn(s: string, k: Class) {
    forall j :: 0 <= j < |s| ==> In(s[j], k)
  }

  /** Length of the longest run of class `k` at the front of `t` (a greedy `*`). */
  function RunLength(t: string, k: Class): (n: nat)
    ensures n <= |t|
    ensures forall j :: 0 <= j < n ==> In(t[j], k)
    ensures n == |t| || !In(t[n], k)
  {
    if t != [] && In(t[0], k) then 1 + RunLength(t[1..], k) else 0
  }

  /** A greedy run is the whole of a block of class `k` that something outside `k` ends. */
  lemma RunLengthOf(a: string, b: string, k: Class)
    requires AllIn(a, k)
    requires b == [] || !In(b[0], k)
    ensures RunLength(a + b, k) == |a|
  {
    assert forall j :: 0 <= j < |a| ==> In((a + b)[j], k);
    assert |b| > 0 ==> !In((a + b)[|a|], k);
  }

  /** Literal text at the front; the text after it. */
  function Literal(t: string, lit: string): (r: Option<string>) {
    if |lit| <= |t| && t[..|lit|] == lit then Some(t[|lit|..]) else None
  }

  /** The text after the literal is what remains once `lit` is put back in front of it. */
  lemma LiteralFacts(t: string, lit: string)
    ensures Literal(t, lit).Some? ==> lit + Literal(t, lit).value == t
  {
    if Literal(t, lit).Some? {
      assert t == t[..|lit|] + t[|lit|..];
    }
  }

  lemma LiteralText(lit: string, rest: string)
    ensures Literal(lit + rest, lit) == Some(rest)
  {
    assert (lit + rest)[..|lit|] == lit;
  }

  /** `\s*`: the text after the leading whitespace. */
  function SkipSpaces(t: string): (r: string)
    ensures |r| <= |t| && r == t[|t| - |r|..]
    ensures AllIn(t[..|t| - |r|], Space)
    ensures r == [] || !IsSpace(r[0])
  {
    t[RunLength(t, Space)..]
  }

  /** `(\d+)`: the greedy run of digits, which must not be empty. */
  function Digits(t: string): (r: Option<Scan<string>>)
    ensures r.Some? ==> r.value.value != [] && AllIn(r.value.value, Digit)
    ensures r.Some? ==> r.value.value + r.value.rest == t
    ensures r.Some? ==> r.value.rest == [] || !IsDigit(r.value.rest[0])
    ensures r.None? <==> t == [] || !IsDigit(t[0])
  {
    var n := RunLength(t, Digit);
    if n == 0 then None else Some(Scan(t[..n], t[n..]))
  }

  /** The value Python's int() gives a run of ASCII decimal digits. */
  function Value(s: string): nat
    requires AllIn(s, Digit)
  {
    if s == [] then 0
    else Value(s[..|s| - 1]) * 10 + (s[|s| - 1] as int - '0' as int)
  }

  /** `(\d+)` converted with int(). */
  function Number(t: string): (r: Option<Scan<nat>>)
    ensures r.None? <==> t == [] || !IsDigit(t[0])
    ensures r.Some? ==> |r.value.rest| < |t|
  {
    var d :- Digits(t);
    Some(Scan(Value(d.value), d.rest))
  }

  /** The decimal text of a count, as Python's str() of an int writes it. */
  function Decimal(n: nat): (s: string)
    ensures s != [] && AllIn(s, Digit)
    ensures Value(s) == n
    ensures n == 0 ==> s == "0"
    ensures n > 0 ==> s[0] != '0'
  {
    var last := ('0' as int + n % 10) as char;
    if n < 10 then [last]
    else
      var init := Decimal(n / 10);
      assert (init + [last])[..|init|] == init;
      init + [last]
  }

  /** `(\d+)` with int() reads a whole block of digits that a non-digit or the end ends. */
  lemma NumberOf(d: string, rest: string)
    requires d != [] && AllIn(d, Digit)
    requires rest == [] || !IsDigit(rest[0])
    ensures Number(d + rest) == Some(Scan(Value(d), rest))
  {
    RunLengthOf(d, rest, Digit);
    assert (d + rest)[..|d|] == d;
    assert (d + rest)[|d|..] == rest;
  }

  /** In particular `(\d+)` reads back the decimal text of `n` when a non-digit follows it. */
  lemma NumberOfDecimal(n: nat, rest: string)
    requires rest == [] || !IsDigit(rest[0])
    ensures Number(Decimal(n) + rest) == Some(Scan(n, rest))
  {
    NumberOf(Decimal(n), rest);
  }
}
