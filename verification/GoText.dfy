/** The few pieces of Go's standard library the models share: optional values, trimming of
    ASCII white space, and integers in decimal. */
module GoText {
  datatype Option<T> = None | Some(value: T)

  predicate IsSpace(c: char) {
    c == ' ' || c == '\t' || c == '\n' || c == '\r' || c == '\U{0B}' || c == '\U{0C}'
  }

  function TrimLeft(s: string): string {
    if s != "" && IsSpace(s[0]) then TrimLeft(s[1..]) else s
  }

  function TrimRight(s: string): string {
    if s != "" && IsSpace(s[|s| - 1]) then TrimRight(s[..|s| - 1]) else s
  }

  function TrimSpace(s: string): string { TrimRight(TrimLeft(s)) }

  function Digit(d: nat): char
    requires d < 10
  {
    ['0', '1', '2', '3', '4', '5', '6', '7', '8', '9'][d]
  }

  function Decimal(n: nat): (s: string)
    ensures s != ""
  {
    if n < 10 then [Digit(n)] else Decimal(n / 10) + [Digit(n % 10)]
  }

  /** Different numbers are written differently. */
  lemma {:induction false} DecimalInjective(m: nat, n: nat)
    ensures Decimal(m) == Decimal(n) ==> m == n
  {
    var s, t := Decimal(m), Decimal(n);
    assert (|s| > 1 <==> m >= 10) && (|t| > 1 <==> n >= 10);
    assert s[|s| - 1] == Digit(m % 10) && t[|t| - 1] == Digit(n % 10);
    if s == t && m >= 10 {
      assert s[..|s| - 1] == Decimal(m / 10) && t[..|t| - 1] == Decimal(n / 10);
      DecimalInjective(m / 10, n / 10);
    }
  }

  // What a string of decimal digits stands for.
  function Value(s: string): int {
    if s == "" then 0 else 10 * Value(s[..|s| - 1]) + (s[|s| - 1] as int - '0' as int)
  }

  /** A number is written in digits that stand for it, without a leading zero. */
  lemma {:induction false} DecimalStandsFor(n: nat)
    ensures var s := Decimal(n);
      && Value(s) == n && (forall c :: c in s ==> '0' <= c <= '9') && (n > 0 ==> s[0] != '0')
  {
    var s, d := Decimal(n), Digit(n % 10);
    assert '0' <= d <= '9' && d as int - '0' as int == n % 10;
    if n < 10 {
      assert s == [d] && s[..0] == "";
    } else {
      DecimalStandsFor(n / 10);
      assert s[..|s| - 1] == Decimal(n / 10);
    }
  }

  ghost predicate AllSpace(s: string) { forall c :: c in s ==> IsSpace(c) }

  ghost predicate NoMargin(s: string) { s == "" || (!IsSpace(s[0]) && !IsSpace(s[|s| - 1])) }

  lemma {:induction false} TrimLeftCuts(s: string) returns (margin: string)
    ensures s == margin + TrimLeft(s) && AllSpace(margin)
    ensures TrimLeft(s) == "" || !IsSpace(TrimLeft(s)[0])
  {
    if s != "" && IsSpace(s[0]) {
      var more := TrimLeftCuts(s[1..]);
      margin := [s[0]] + more;
      assert s == [s[0]] + s[1..];
    } else {
      margin := "";
    }
  }

  lemma {:induction false} TrimRightCuts(s: string) returns (margin: string)
    ensures s == TrimRight(s) + margin && AllSpace(margin)
    ensures TrimRight(s) == "" || !IsSpace(TrimRight(s)[|TrimRight(s)| - 1])
  {
    if s != "" && IsSpace(s[|s| - 1]) {
      var more := TrimRightCuts(s[..|s| - 1]);
      margin := more + [s[|s| - 1]];
      assert s == s[..|s| - 1] + [s[|s| - 1]];
    } else {
      margin := "";
    }
  }

  /** Trimming cuts white space off both ends, all there is and nothing else. */
  lemma TrimSpaceCuts(s: string) returns (front: string, back: string)
    ensures s == front + TrimSpace(s) + back
    ensures AllSpace(front) && AllSpace(back) && NoMargin(TrimSpace(s))
  {
    front := TrimLeftCuts(s);
    back := TrimRightCuts(TrimLeft(s));
    assert TrimSpace(s) != "" ==> TrimSpace(s)[0] == TrimLeft(s)[0];
  }
}
