/** Query-string id lists such as "1, 2,3": JavaScript's `split(",")`, `trim()`
    and `parseInt` (section 19.2.5 of ECMA-262), and the rule the list filters
    share: a list with an unparseable entry imposes no restriction. */
module IdList {
  import opened Wrappers

  /** ECMA-262 WhiteSpace and LineTerminator code points: what `trim` removes
      and what `parseInt` skips before the number. */
  predicate IsJsSpace(c: char) {
    var n := c as int;
    || n == 0x09 || n == 0x0A || n == 0x0B || n == 0x0C || n == 0x0D
    || n == 0x20 || n == 0xA0 || n == 0x1680 || (0x2000 <= n <= 0x200A)
    || n == 0x2028 || n == 0x2029 || n == 0x202F || n == 0x205F
    || n == 0x3000 || n == 0xFEFF
  }

  /** `s` without its leading white space. */
  function TrimStart(s: string): (r: string)
    ensures |r| <= |s| && r == s[|s| - |r|..]
    ensures forall i :: 0 <= i < |s| - |r| ==> IsJsSpace(s[i])
    ensures r == [] || !IsJsSpace(r[0])
  {
    if s != [] && IsJsSpace(s[0]) then TrimStart(s[1..]) else s
  }

  /** `s` without its trailing white space. */
  function TrimEnd(s: string): (r: string)
    ensures |r| <= |s| && r == s[..|r|]
    ensures forall i :: |r| <= i < |s| ==> IsJsSpace(s[i])
    ensures r == [] || !IsJsSpace(r[|r| - 1])
  {
    if s != [] && IsJsSpace(s[|s| - 1]) then TrimEnd(s[..|s| - 1]) else s
  }

  /** `String.prototype.trim`. */
  function Trim(s: string): (r: string)
    ensures var k := |s| - |TrimStart(s)|;
            && k + |r| <= |s| && r == s[k..k + |r|]
            && (forall i :: 0 <= i < k ==> IsJsSpace(s[i]))
            && (forall i :: k + |r| <= i < |s| ==> IsJsSpace(s[i]))
    ensures r == [] || (!IsJsSpace(r[0]) && !IsJsSpace(r[|r| - 1]))
  {
    TrimEnd(TrimStart(s))
  }

  /** `String.prototype.split` with a one-character separator: the pieces
      between separators, so "" gives [""] and "1,,2" gives ["1", "", "2"]. */
  function Split(s: string, sep: char): (r: seq<string>)
    ensures |r| >= 1
    ensures forall i :: 0 <= i < |r| ==> sep !in r[i]
  {
    if s == [] then [[]]
    else
      var rest := Split(s[1..], sep);
      if s[0] == sep then [[]] + rest
      else [[s[0]] + rest[0]] + rest[1..]
  }

  /** `Array.prototype.join` with a one-character separator. */
  function Join(pieces: seq<string>, sep: char): string
    requires |pieces| >= 1
  {
    if |pieces| == 1 then pieces[0] else pieces[0] + [sep] + Join(pieces[1..], sep)
  }

  /** Joining the pieces of a split gives back the original string. */
  lemma {:induction false} JoinSplit(s: string, sep: char)
    ensures Join(Split(s, sep), sep) == s
  {
    if s != [] {
      JoinSplit(s[1..], sep);
      var rest := Split(s[1..], sep);
      if s[0] != sep {
        if |rest| == 1 {
          assert s == [s[0]] + rest[0];
        } else {
          assert Split(s, sep)[1..] == rest[1..];
          assert s == [s[0]] + (rest[0] + [sep] + Join(rest[1..], sep));
        }
      } else {
        assert s == [sep] + s[1..];
      }
    }
  }

  /** Splitting a join of separator-free pieces gives back the pieces. */
  lemma {:induction false} SplitJoin(pieces: seq<string>, sep: char)
    requires |pieces| >= 1
    requires forall i :: 0 <= i < |pieces| ==> sep !in pieces[i]
    ensures Split(Join(pieces, sep), sep) == pieces
  {
    if |pieces| == 1 {
      SplitPiece(pieces[0], sep);
    } else {
      SplitJoin(pieces[1..], sep);
      SplitPrefix(pieces[0], Join(pieces[1..], sep), sep);
      assert pieces == [pieces[0]] + pieces[1..];
    }
  }

  lemma {:induction false} SplitPiece(p: string, sep: char)
    requires sep !in p
    ensures Split(p, sep) == [p]
  {
    if p != [] {
      SplitPiece(p[1..], sep);
      assert p == [p[0]] + p[1..];
    }
  }

  lemma {:induction false} SplitPrefix(p: string, t: string, sep: char)
    requires sep !in p
    ensures Split(p + [sep] + t, sep) == [p] + Split(t, sep)
  {
    if p == [] {
      assert (p + [sep] + t)[1..] == t;
    } else {
      assert (p + [sep] + t)[1..] == p[1..] + [sep] + t;
      SplitPrefix(p[1..], t, sep);
      assert p == [p[0]] + p[1..];
    }
  }

  /** The value of a character as a digit in bases up to 36, or -1. */
  function DigitValue(c: char): (v: int)
    ensures -1 <= v < 36
  {
    if '0' <= c <= '9' then c as int - '0' as int
    else if 'a' <= c <= 'z' then c as int - 'a' as int + 10
    else if 'A' <= c <= 'Z' then c as int - 'A' as int + 10
    else -1
  }

  predicate IsDigit(c: char, radix: nat) {
    0 <= DigitValue(c) < radix
  }

  /** The longest prefix of `s` made of digits of `radix`. */
  function DigitRun(s: string, radix: nat): (r: string)
    ensures |r| <= |s| && r == s[..|r|]
    ensures forall i :: 0 <= i < |r| ==> IsDigit(r[i], radix)
    ensures |r| < |s| ==> !IsDigit(s[|r|], radix)
  {
    if s != [] && IsDigit(s[0], radix) then [s[0]] + DigitRun(s[1..], radix) else []
  }

  /** The number a run of digits denotes in `radix`. */
  function DigitsValue(d: string, radix: nat): nat
    requires forall i :: 0 <= i < |d| ==> IsDigit(d[i], radix)
  {
    if d == [] then 0
    else
      var last := d[|d| - 1];
      assert IsDigit(last, radix);
      DigitsValue(d[..|d| - 1], radix) * radix + DigitValue(last)
  }

  /** JavaScript `parseInt(s)` without a radix: skip white space, take an
      optional sign, read base 16 after a "0x" or "0X" prefix and base 10
      otherwise, and stop at the first non-digit; `None` is NaN, the result
      when no digit follows. */
  function ParseInt(s: string): (r: Option<int>)
    ensures r.Some? ==> HasDigit(s)
    ensures r.Some? && TrimStart(s) != [] && TrimStart(s)[0] == '-' ==> r.value <= 0
  {
    var t := TrimStart(s);
    SignedHasDigit(s);
    if t != [] && t[0] == '-' then
      match ParseUnsigned(t[1..])
      case Some(v) => Some(-v)
      case None => None
    else if t != [] && t[0] == '+' then ParseUnsigned(t[1..])
    else ParseUnsigned(t)
  }

  /** Some character of `s` is a decimal or hexadecimal digit. */
  predicate HasDigit(s: string) {
    s != [] && (IsDigit(s[0], 16) || HasDigit(s[1..]))
  }

  lemma {:induction false} DigitAt(s: string, i: nat)
    requires i < |s| && IsDigit(s[i], 16)
    ensures HasDigit(s)
  {
    if i > 0 {
      DigitAt(s[1..], i - 1);
    }
  }

  /** A number needs a digit: a suffix of `s` without one is NaN. */
  lemma UnsignedHasDigit(s: string, k: nat)
    requires k <= |s|
    ensures ParseUnsigned(s[k..]).Some? ==> HasDigit(s)
  {
    var u := s[k..];
    if ParseUnsigned(u).Some? {
      if HasHexPrefix(u) {
        assert IsDigit(DigitRun(u[2..], 16)[0], 16);
        DigitAt(s, k + 2);
      } else {
        assert IsDigit(DigitRun(u, 10)[0], 10);
        DigitAt(s, k);
      }
    }
  }

  /** The number behind the white space, signed or not, needs a digit of `s`. */
  lemma SignedHasDigit(s: string)
    ensures var t := TrimStart(s);
            && (ParseUnsigned(t).Some? ==> HasDigit(s))
            && (t != [] && ParseUnsigned(t[1..]).Some? ==> HasDigit(s))
  {
    var t := TrimStart(s);
    var k := |s| - |t|;
    UnsignedHasDigit(s, k);
    if t != [] {
      assert t[1..] == s[k + 1..];
      UnsignedHasDigit(s, k + 1);
    }
  }

  predicate HasHexPrefix(u: string) {
    |u| >= 2 && u[0] == '0' && (u[1] == 'x' || u[1] == 'X')
  }

  /** The number after the sign: hexadecimal behind a "0x" prefix, else decimal. */
  function ParseUnsigned(u: string): Option<int> {
    if HasHexPrefix(u) then ParseRun(u[2..], 16) else ParseRun(u, 10)
  }

  /** The value of the leading digit run, or `None` when there is none. */
  function ParseRun(u: string, radix: nat): Option<int> {
    var d := DigitRun(u, radix);
    if d == [] then None else Some(DigitsValue(d, radix))
  }

  /** The decimal numeral of a natural number. */
  function NatDigits(n: nat): (d: string)
    ensures |d| >= 1
    ensures forall i :: 0 <= i < |d| ==> IsDigit(d[i], 10)
  {
    if n < 10 then [('0' as int + n) as char]
    else NatDigits(n / 10) + [('0' as int + n % 10) as char]
  }

  /** The decimal numeral of an integer, with a leading '-' when negative. */
  function Decimal(n: int): string {
    if n < 0 then "-" + NatDigits(-n) else NatDigits(n)
  }

  lemma {:induction false} NatDigitsValue(n: nat)
    ensures DigitsValue(NatDigits(n), 10) == n
  {
    if n >= 10 {
      NatDigitsValue(n / 10);
      var d := NatDigits(n);
      assert d[..|d| - 1] == NatDigits(n / 10);
    }
  }

  lemma {:induction false} DigitRunAll(d: string, radix: nat)
    requires forall i :: 0 <= i < |d| ==> IsDigit(d[i], radix)
    ensures DigitRun(d, radix) == d
  {
    if d != [] {
      DigitRunAll(d[1..], radix);
      assert d == [d[0]] + d[1..];
    }
  }

  /** `parseInt` reads back every decimal numeral: printing an id and parsing
      it again gives the id. */
  lemma ParseIntDecimal(n: int)
    ensures ParseInt(Decimal(n)) == Some(n)
  {
    if n < 0 {
      ParseIntNegative(-n);
    } else {
      NatDigitsChars(n);
      ParseIntUnsigned(NatDigits(n));
      ParseNatDigits(n);
    }
  }

  /** A minus sign before a numeral negates it. */
  lemma ParseIntNegative(m: nat)
    ensures ParseInt("-" + NatDigits(m)) == Some(-(m as int))
  {
    var s := "-" + NatDigits(m);
    assert s[0] == '-' && !IsJsSpace(s[0]);
    assert TrimStart(s) == s;
    assert s[1..] == NatDigits(m);
    ParseNatDigits(m);
  }

  lemma ParseNatDigits(n: nat)
    ensures ParseUnsigned(NatDigits(n)) == Some(n)
  {
    var d := NatDigits(n);
    NatDigitsValue(n);
    DigitRunAll(d, 10);
    NoHexPrefix(n);
  }

  lemma NatDigitsChars(n: nat)
    ensures forall i :: 0 <= i < |NatDigits(n)| ==> '0' <= NatDigits(n)[i] <= '9'
  {
    var d := NatDigits(n);
    forall i | 0 <= i < |d| ensures '0' <= d[i] <= '9' {
      assert IsDigit(d[i], 10);
    }
  }

  lemma NoHexPrefix(n: nat)
    ensures var d := NatDigits(n); !(|d| >= 2 && d[0] == '0')
  {
    if n >= 10 {
      NatDigitsLead(n);
    }
  }

  lemma {:induction false} NatDigitsLead(n: nat)
    requires n >= 10
    ensures NatDigits(n)[0] != '0'
  {
    if n / 10 >= 10 {
      NatDigitsLead(n / 10);
    }
  }

  /** `parseInt` stops at the first character that is not a digit: "12abc" is
      12. The one exception is a "0" followed by "x" or "X", a hex prefix. */
  lemma ParseIntStopsAtNonDigit(n: nat, c: char, rest: string)
    requires !IsDigit(c, 10)
    requires n == 0 ==> c != 'x' && c != 'X'
    ensures ParseInt(NatDigits(n) + [c] + rest) == Some(n)
  {
    var d := NatDigits(n);
    var s := d + [c] + rest;
    NatDigitsChars(n);
    NoHexPrefix(n);
    assert s[0] == d[0];
    assert !HasHexPrefix(s) by {
      if |d| >= 2 { assert s[1] == d[1]; }
    }
    ParseIntUnsigned(s);
    DigitRunPrefix(d, c, rest);
    NatDigitsValue(n);
  }

  /** A string that starts with a digit parses as an unsigned number. */
  lemma ParseIntUnsigned(s: string)
    requires s != [] && '0' <= s[0] <= '9'
    ensures ParseInt(s) == ParseUnsigned(s)
  {
    assert TrimStart(s) == s;
  }

  lemma {:induction false} DigitRunPrefix(d: string, c: char, rest: string)
    requires forall i :: 0 <= i < |d| ==> IsDigit(d[i], 10)
    requires !IsDigit(c, 10)
    ensures DigitRun(d + [c] + rest, 10) == d
  {
    if d != [] {
      assert (d + [c] + rest)[1..] == d[1..] + [c] + rest;
      DigitRunPrefix(d[1..], c, rest);
      assert d == [d[0]] + d[1..];
    }
  }

  /** `s.split(",").map(id => parseInt(id.trim()))`. */
  function ParseIdList(s: string): (r: seq<Option<int>>)
    ensures |r| == |Split(s, ',')|
    ensures forall i :: 0 <= i < |r| ==> r[i] == ParseInt(Trim(Split(s, ',')[i]))
  {
    var pieces := Split(s, ',');
    seq(|pieces|, i requires 0 <= i < |pieces| => ParseInt(Trim(pieces[i])))
  }

  function Values(xs: seq<Option<int>>): (r: seq<int>)
    requires forall i :: 0 <= i < |xs| ==> xs[i].Some?
    ensures |r| == |xs| && forall i :: 0 <= i < |xs| ==> xs[i] == Some(r[i])
  {
    seq(|xs|, i requires 0 <= i < |xs| => xs[i].value)
  }

  /** The ids a list filter restricts to, or `None` when it imposes no
      restriction: the filter is absent or empty, or some entry does not
      parse. */
  function AcceptedIds(filter: Option<string>): (r: Option<seq<int>>)
    ensures r.Some? <==> filter.Some? && filter.value != []
                         && forall i :: 0 <= i < |ParseIdList(filter.value)| ==> ParseIdList(filter.value)[i].Some?
    ensures r.Some? ==> |r.value| == |Split(filter.value, ',')|
    ensures r.Some? ==> forall i :: 0 <= i < |r.value| ==> Some(r.value[i]) == ParseInt(Trim(Split(filter.value, ',')[i]))
  {
    if filter.None? || filter.value == [] then None
    else
      var ids := ParseIdList(filter.value);
      if forall i :: 0 <= i < |ids| ==> ids[i].Some? then Some(Values(ids)) else None
  }

  /** Whether a column value passes a list filter (`inArray`). */
  predicate Admits(accepted: Option<seq<int>>, v: int) {
    accepted.None? || v in accepted.value
  }

  /** The filter string a client sends for a list of ids. */
  function IdsQuery(ids: seq<int>): string
    requires |ids| >= 1
  {
    Join(seq(|ids|, i requires 0 <= i < |ids| => Decimal(ids[i])), ',')
  }

  /** A non-empty filter whose every entry parses restricts to exactly the
      parsed values. */
  lemma AllParsedAccepted(q: string, ids: seq<int>)
    requires q != [] && |ParseIdList(q)| == |ids|
    requires forall i :: 0 <= i < |ids| ==> ParseIdList(q)[i] == Some(ids[i])
    ensures AcceptedIds(Some(q)) == Some(ids)
  {
    var xs := ParseIdList(q);
    assert forall i :: 0 <= i < |xs| ==> xs[i].Some?;
    ValuesExact(xs, ids);
  }

  /** Unwrapping a list of parsed values gives back exactly those values. */
  lemma ValuesExact(xs: seq<Option<int>>, ids: seq<int>)
    requires |xs| == |ids| && forall i :: 0 <= i < |ids| ==> xs[i] == Some(ids[i])
    ensures Values(xs) == ids
  {
    assert forall i :: 0 <= i < |ids| ==> Values(xs)[i] == ids[i];
  }

  /** A filter written as a comma-joined list of decimal ids restricts to
      exactly those ids. */
  lemma IdsQueryAccepted(ids: seq<int>)
    requires |ids| >= 1
    ensures AcceptedIds(Some(IdsQuery(ids))) == Some(ids)
  {
    var pieces := seq(|ids|, i requires 0 <= i < |ids| => Decimal(ids[i]));
    forall i | 0 <= i < |pieces| ensures ',' !in pieces[i] && Trim(pieces[i]) == pieces[i] {
      DecimalShape(ids[i]);
    }
    var q := IdsQuery(ids);
    assert Split(q, ',') == pieces by {
      SplitJoin(pieces, ',');
    }
    assert q != [] by {
      DecimalShape(ids[0]);
      JoinNonEmpty(pieces, ',');
    }
    forall i | 0 <= i < |ids| ensures ParseIdList(q)[i] == Some(ids[i]) {
      assert ParseIdList(q)[i] == ParseInt(Trim(pieces[i])) == ParseInt(Decimal(ids[i]));
      ParseIntDecimal(ids[i]);
    }
    AllParsedAccepted(q, ids);
  }

  lemma {:induction false} JoinNonEmpty(pieces: seq<string>, sep: char)
    requires |pieces| >= 1 && pieces[0] != []
    ensures Join(pieces, sep) != []
  {
  }

  /** A numeral holds only a sign and decimal digits. */
  lemma DecimalChars(n: int)
    ensures Decimal(n) != []
    ensures forall i :: 0 <= i < |Decimal(n)| ==> Decimal(n)[i] == '-' || '0' <= Decimal(n)[i] <= '9'
  {
    var m: nat := if n < 0 then -n else n;
    NatDigitsChars(m);
  }

  lemma DecimalShape(n: int)
    ensures ',' !in Decimal(n)
    ensures Decimal(n) != []
    ensures Trim(Decimal(n)) == Decimal(n)
  {
    DecimalChars(n);
    var d := Decimal(n);
    assert !IsJsSpace(d[0]) && !IsJsSpace(d[|d| - 1]);
    assert TrimStart(d) == d;
    assert TrimEnd(d) == d;
  }
}
