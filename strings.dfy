/** Text helpers shared by the engine's warnings and the duration formatter:
    Python's `str.join` and the decimal rendering of an `int` by an f-string. */
module Strings {

  /** `sep.join(parts)`: the parts in order, with `sep` between consecutive ones. */
  function Join(parts: seq<string>, sep: string): string
  {
    if parts == [] then ""
    else if |parts| == 1 then parts[0]
    else parts[0] + sep + Join(parts[1..], sep)
  }

  /** A ", "-join of comma-free parts holds a comma exactly when it joins more
      than one part; joining a non-empty first part gives a non-empty text. */
  lemma CommaInJoin(parts: seq<string>)
    requires forall i :: 0 <= i < |parts| ==> ',' !in parts[i]
    ensures ',' in Join(parts, ", ") <==> |parts| > 1
    ensures |parts| > 0 ==> |Join(parts, ", ")| >= |parts[0]|
  {
    if |parts| > 1 {
      var j := Join(parts, ", ");
      assert j == parts[0] + ", " + Join(parts[1..], ", ");
      assert j[|parts[0]|] == ',';
    }
  }

  /** `s.split(c)` for a one-character separator: the pieces between
      occurrences of `c`, in order; there is always at least one piece. */
  function Split(s: string, c: char): (pieces: seq<string>)
    ensures |pieces| > 0
  {
    if s == [] then [""]
    else if s[0] == c then [""] + Split(s[1..], c)
    else
      var rest := Split(s[1..], c);
      [[s[0]] + rest[0]] + rest[1..]
  }

  /** Each of `parts` with `pre` put in front of it. */
  function Prefixed(pre: string, parts: seq<string>): (r: seq<string>)
    ensures |r| == |parts|
    ensures forall i :: 0 <= i < |parts| ==> r[i] == pre + parts[i]
  {
    seq(|parts|, i requires 0 <= i < |parts| => pre + parts[i])
  }

  lemma {:induction false} SplitWithout(s: string, c: char)
    requires c !in s
    ensures Split(s, c) == [s]
    decreases |s|
  {
    if s != [] {
      assert s[0] != c;
      assert c !in s[1..] by {
        forall i | 0 <= i < |s[1..]| ensures s[1..][i] != c {
          assert s[1..][i] == s[i + 1];
        }
      }
      SplitWithout(s[1..], c);
      assert [s[0]] + s[1..] == s;
    }
  }

  /** Splitting at the first separator: what comes before it is the first piece. */
  lemma {:induction false} SplitAt(a: string, c: char, b: string)
    requires c !in a
    ensures Split(a + [c] + b, c) == [a] + Split(b, c)
    decreases |a|
  {
    var s := a + [c] + b;
    if a == [] {
      assert s == [c] + b;
      assert s[1..] == b;
    } else {
      assert s[0] == a[0];
      assert s[1..] == a[1..] + [c] + b;
      assert c !in a[1..] by {
        forall i | 0 <= i < |a[1..]| ensures a[1..][i] != c {
          assert a[1..][i] == a[i + 1];
        }
      }
      SplitAt(a[1..], c, b);
      assert [a[0]] + a[1..] == a;
    }
  }

  /** Splitting a join whose separator starts with `c`, when `c` occurs in
      none of the parts nor in the rest of the separator, gives the parts back,
      each after the first carrying the rest of the separator in front. */
  lemma {:induction false} SplitJoin(pre: string, parts: seq<string>, c: char, t: string)
    requires |parts| > 0
    requires c !in pre && c !in t
    requires forall i :: 0 <= i < |parts| ==> c !in parts[i]
    ensures Split(pre + Join(parts, [c] + t), c) == [pre + parts[0]] + Prefixed(t, parts[1..])
    decreases |parts|
  {
    var sep := [c] + t;
    if |parts| == 1 {
      assert c !in pre + parts[0] by {
        forall i | 0 <= i < |pre + parts[0]| ensures (pre + parts[0])[i] != c {
          if i >= |pre| {
            assert (pre + parts[0])[i] == parts[0][i - |pre|];
          }
        }
      }
      SplitWithout(pre + parts[0], c);
      assert Prefixed(t, parts[1..]) == [];
    } else {
      var head := pre + parts[0];
      var more := Join(parts[1..], sep);
      assert pre + Join(parts, sep) == head + [c] + (t + more);
      assert c !in head by {
        forall i | 0 <= i < |head| ensures head[i] != c {
          if i >= |pre| {
            assert head[i] == parts[0][i - |pre|];
          }
        }
      }
      SplitAt(head, c, t + more);
      assert forall i :: 0 <= i < |parts[1..]| ==> c !in parts[1..][i] by {
        forall i | 0 <= i < |parts[1..]| ensures c !in parts[1..][i] {
          assert parts[1..][i] == parts[i + 1];
        }
      }
      SplitJoin(t, parts[1..], c, t);
      assert Prefixed(t, parts[1..]) == [t + parts[1]] + Prefixed(t, parts[2..]);
      assert parts[1..][1..] == parts[2..];
    }
  }

  /** The same for Python's usual ", " separator. */
  lemma SplitJoinComma(parts: seq<string>)
    requires |parts| > 0
    requires forall i :: 0 <= i < |parts| ==> ',' !in parts[i]
    ensures Split(Join(parts, ", "), ',') == [parts[0]] + Prefixed(" ", parts[1..])
  {
    assert [','] + " " == ", ";
    SplitJoinSep(parts, ',', " ");
  }

  /** `SplitJoin` without a prefix. */
  lemma SplitJoinSep(parts: seq<string>, c: char, t: string)
    requires |parts| > 0
    requires c !in t
    requires forall i :: 0 <= i < |parts| ==> c !in parts[i]
    ensures Split(Join(parts, [c] + t), c) == [parts[0]] + Prefixed(t, parts[1..])
  {
    var text := Join(parts, [c] + t);
    SplitJoin("", parts, c, t);
    assert "" + text == text;
    assert "" + parts[0] == parts[0];
  }

  predicate IsDigit(c: char)
  {
    '0' <= c <= '9'
  }

  predicate AllDigits(s: string)
  {
    forall i :: 0 <= i < |s| ==> IsDigit(s[i])
  }

  function DigitChar(d: nat): (c: char)
    requires d < 10
    ensures IsDigit(c) && c as int - '0' as int == d
  {
    "0123456789"[d]
  }

  function DigitValue(c: char): nat
    requires IsDigit(c)
  {
    c as int - '0' as int
  }

  /** The decimal digits of `n`, most significant first, without leading zeros. */
  function NatToString(n: nat): (s: string)
    ensures |s| > 0 && AllDigits(s)
    ensures |s| > 1 ==> s[0] != '0'
    decreases n
  {
    if n < 10 then [DigitChar(n)] else NatToString(n / 10) + [DigitChar(n % 10)]
  }

  /** Reads a string of decimal digits back as a number. */
  function ParseNat(s: string): nat
    requires AllDigits(s)
  {
    if s == [] then 0 else ParseNat(s[..|s| - 1]) * 10 + DigitValue(s[|s| - 1])
  }

  lemma {:induction false} ParseNatToString(n: nat)
    ensures ParseNat(NatToString(n)) == n
    decreases n
  {
    var s := NatToString(n);
    if n >= 10 {
      ParseNatToString(n / 10);
      assert s[..|s| - 1] == NatToString(n / 10);
    }
  }

  /** `f"{n}"` for an integer: a minus sign before the digits of a negative number. */
  function IntToString(n: int): (s: string)
  {
    if n < 0 then "-" + NatToString(-n) else NatToString(n)
  }

  /** The shape of what `IntToString` produces. */
  predicate IsIntLiteral(s: string)
  {
    if |s| > 0 && s[0] == '-' then |s| > 1 && AllDigits(s[1..]) else |s| > 0 && AllDigits(s)
  }

  function ParseInt(s: string): int
    requires IsIntLiteral(s)
  {
    if s[0] == '-' then -(ParseNat(s[1..]) as int) else ParseNat(s)
  }

  /** The decimal rendering of an integer holds only digits and a minus sign. */
  lemma IntToStringChars(n: int, c: char)
    requires c != '-' && !IsDigit(c)
    ensures c !in IntToString(n)
  {
    var s := IntToString(n);
    if n < 0 {
      var digits := NatToString(-n);
      assert s == "-" + digits;
      forall i | 0 <= i < |s| ensures s[i] != c {
        if i > 0 {
          assert s[i] == digits[i - 1];
        }
      }
    }
  }

  /** The rendering is a literal that reads back as the same number. */
  lemma IntToStringRoundTrip(n: int)
    ensures IsIntLiteral(IntToString(n)) && ParseInt(IntToString(n)) == n
  {
    var s := IntToString(n);
    if n < 0 {
      var m: nat := -n;
      var digits := NatToString(m);
      assert s == "-" + digits;
      NegativeLiteral(digits);
      ParseNatToString(m);
      assert ParseInt(s) == n;
    } else {
      var digits := NatToString(n);
      assert s == digits;
      DigitsLiteral(digits);
      ParseNatToString(n);
    }
  }

  lemma NegativeLiteral(digits: string)
    requires |digits| > 0 && AllDigits(digits)
    ensures IsIntLiteral("-" + digits) && ParseInt("-" + digits) == -(ParseNat(digits) as int)
  {
    var s := "-" + digits;
    assert s[0] == '-' && s[1..] == digits;
  }

  lemma DigitsLiteral(digits: string)
    requires |digits| > 0 && AllDigits(digits)
    ensures IsIntLiteral(digits) && ParseInt(digits) == ParseNat(digits)
  {
    assert IsDigit(digits[0]);
  }
}
