/** String helpers the renderer is built from: joining a list of strings
    around a separator (JavaScript's `Array.prototype.join`), splitting a
    string at line feeds (`String.prototype.split('\n')`) and the decimal
    form JavaScript's `String()` gives an integer. */
module Strings {

  /** `xs` joined with `sep` between consecutive elements; the empty list
      joins to the empty string. */
  function Join(xs: seq<string>, sep: string): string
  {
    if |xs| == 0 then ""
    else if |xs| == 1 then xs[0]
    else xs[0] + sep + Join(xs[1..], sep)
  }

  /** True when `s` begins with `prefix`. */
  predicate StartsWith(s: string, prefix: string)
  {
    |prefix| <= |s| && s[..|prefix|] == prefix
  }

  /** `xs` joined with no separator. */
  function Flatten(xs: seq<string>): string
  {
    Join(xs, "")
  }

  /** Appending one element to a non-empty list appends the separator and the element. */
  lemma {:induction false} JoinSnoc(xs: seq<string>, x: string, sep: string)
    requires |xs| > 0
    ensures Join(xs + [x], sep) == Join(xs, sep) + sep + x
  {
    if |xs| == 1 {
      assert xs + [x] == [xs[0], x];
      assert Join([x], sep) == x;
    } else {
      assert (xs + [x])[1..] == xs[1..] + [x];
      JoinSnoc(xs[1..], x, sep);
    }
  }

  /** Joining two non-empty lists is joining each and putting one separator between. */
  lemma {:induction false} JoinAppend(xs: seq<string>, ys: seq<string>, sep: string)
    requires |xs| > 0 && |ys| > 0
    ensures Join(xs + ys, sep) == Join(xs, sep) + sep + Join(ys, sep)
  {
    if |xs| == 1 {
      assert (xs + ys)[1..] == ys;
    } else {
      assert (xs + ys)[1..] == xs[1..] + ys;
      JoinAppend(xs[1..], ys, sep);
    }
  }

  /** The part of `s` before the first `c`, or all of `s` when there is no
      `c`: how a reader finds the callee of `callee(args)` or the variable
      of `$var = value`. */
  function Before(s: string, c: char): (r: string)
    ensures |r| <= |s| && r == s[..|r|]
    ensures c !in r
    ensures |r| < |s| ==> s[|r|] == c
    decreases |s|
  {
    if |s| == 0 || s[0] == c then "" else [s[0]] + Before(s[1..], c)
  }

  /** A text without `c`, then `c`, reads back as that text. */
  lemma BeforeFirst(p: string, c: char, q: string)
    requires c !in p
    ensures Before(p + [c] + q, c) == p
  {
    var s := p + [c] + q;
    var r := Before(s, c);
    assert s[|p|] == c;
    assert |r| == |p|;
    assert r == s[..|p|] == p;
  }

  /** Around a fixed prefix and suffix, equal wholes have equal middles. */
  lemma Cancel(p: string, x: string, y: string, q: string)
    ensures p + x + q == p + y + q <==> x == y
  {
    if p + x + q == p + y + q {
      assert |x| == |y|;
      assert x == (p + x + q)[|p|..|p| + |x|];
      assert y == (p + y + q)[|p|..|p| + |y|];
    }
  }

  /** Concatenation is a homomorphism from list append to string append. */
  lemma {:induction false} FlattenAppend(a: seq<string>, b: seq<string>)
    ensures Flatten(a + b) == Flatten(a) + Flatten(b)
  {
    if |a| == 0 {
      assert a + b == b;
    } else if |a| == 1 {
      if |b| == 0 {
        assert a + b == a;
      } else {
        assert a + b == [a[0]] + b;
        assert ([a[0]] + b)[1..] == b;
      }
    } else {
      assert (a + b)[1..] == a[1..] + b;
      FlattenAppend(a[1..], b);
    }
  }

  /** Neighbouring elements glued in pairs: the first and second, the third
      and fourth, and so on; an odd last element stays alone. */
  function PairUp(xs: seq<string>): (r: seq<string>)
    ensures |r| == (|xs| + 1) / 2
  {
    if |xs| <= 1 then xs else [xs[0] + xs[1]] + PairUp(xs[2..])
  }

  /** Gluing neighbours in pairs does not change the concatenation. */
  lemma {:induction false} FlattenPairUp(xs: seq<string>)
    ensures Flatten(PairUp(xs)) == Flatten(xs)
  {
    if |xs| > 1 {
      FlattenPairUp(xs[2..]);
      assert xs == [xs[0], xs[1]] + xs[2..];
      FlattenAppend([xs[0], xs[1]], xs[2..]);
      FlattenAppend([xs[0] + xs[1]], PairUp(xs[2..]));
      assert Flatten([xs[0], xs[1]]) == xs[0] + "" + Flatten([xs[1]]);
      assert Flatten([xs[0] + xs[1]]) == xs[0] + xs[1];
    }
  }

  /** The pieces of `s` between line feeds, as `s.split('\n')` returns them:
      there is always at least one piece and no piece holds a line feed. */
  function SplitLines(s: string): (parts: seq<string>)
    ensures |parts| >= 1
    ensures forall i | 0 <= i < |parts| :: '\n' !in parts[i]
  {
    if |s| == 0 then [""]
    else
      var rest := SplitLines(s[1..]);
      if s[0] == '\n' then [""] + rest
      else [[s[0]] + rest[0]] + rest[1..]
  }

  /** Re-inserting a line feed between the pieces gives back the original string. */
  lemma {:induction false} JoinSplitLines(s: string)
    ensures Join(SplitLines(s), "\n") == s
  {
    if |s| > 0 {
      var rest := SplitLines(s[1..]);
      JoinSplitLines(s[1..]);
      if s[0] == '\n' {
        assert SplitLines(s) == [""] + rest;
        assert ([""] + rest)[1..] == rest;
        assert s == [s[0]] + s[1..];
      } else {
        var parts := [[s[0]] + rest[0]] + rest[1..];
        assert SplitLines(s) == parts;
        if |rest| == 1 {
          assert parts == [[s[0]] + rest[0]];
          assert Join(rest, "\n") == rest[0];
        } else {
          assert parts[1..] == rest[1..];
          assert Join(rest, "\n") == rest[0] + "\n" + Join(rest[1..], "\n");
        }
        assert s == [s[0]] + s[1..];
      }
    }
  }

  /** Conversely, splitting a join of line-feed-free pieces gives the pieces back,
      so `SplitLines` is the unique such decomposition of a string. */
  lemma {:induction false} SplitJoinLines(parts: seq<string>)
    requires |parts| >= 1
    requires forall i | 0 <= i < |parts| :: '\n' !in parts[i]
    ensures SplitLines(Join(parts, "\n")) == parts
    decreases |parts|, |parts[0]|
  {
    var head := parts[0];
    if |head| == 0 {
      if |parts| > 1 {
        var tail := Join(parts[1..], "\n");
        assert Join(parts, "\n") == "\n" + tail;
        assert ("\n" + tail)[1..] == tail;
        SplitJoinLines(parts[1..]);
        assert parts == [""] + parts[1..];
      }
    } else {
      var shorter := [head[1..]] + parts[1..];
      assert shorter[1..] == parts[1..];
      assert forall i | 0 <= i < |shorter| :: '\n' !in shorter[i] by {
        forall i | 0 <= i < |shorter|
          ensures '\n' !in shorter[i]
        {
          if i == 0 {
            assert forall c | c in head[1..] :: c in head;
          } else {
            assert shorter[i] == parts[i];
          }
        }
      }
      SplitJoinLines(shorter);
      var s := Join(parts, "\n");
      if |parts| == 1 {
        assert s == head;
        assert Join(shorter, "\n") == head[1..];
      } else {
        assert s == head + "\n" + Join(parts[1..], "\n");
        assert Join(shorter, "\n") == head[1..] + "\n" + Join(parts[1..], "\n");
      }
      assert s[1..] == Join(shorter, "\n");
      assert s[0] == head[0] && head[0] != '\n';
      assert head == [head[0]] + head[1..];
      assert parts == [[head[0]] + shorter[0]] + shorter[1..];
    }
  }

  /** True when `c` is an ASCII decimal digit. */
  predicate IsDigit(c: char)
  {
    '0' <= c <= '9'
  }

  /** The digit character of a value below ten. */
  function DigitChar(d: nat): (c: char)
    requires d < 10
    ensures IsDigit(c)
    ensures c as int - '0' as int == d
  {
    (d + '0' as int) as char
  }

  /** Decimal digits of `n`, most significant first, with no leading zero. */
  function NatToString(n: nat): (s: string)
    ensures |s| >= 1
    ensures forall i | 0 <= i < |s| :: IsDigit(s[i])
    ensures s[0] == '0' ==> n == 0
  {
    if n < 10 then [DigitChar(n)]
    else NatToString(n / 10) + [DigitChar(n % 10)]
  }

  /** The integers a JavaScript number holds exactly: at most 2^53 in
      magnitude. Within this range `String(n)` prints every digit; beyond
      it JavaScript prints the shortest digits that read back as the same
      double, which this model does not reproduce. */
  type SafeInteger = i: int | -0x20_0000_0000_0000 <= i <= 0x20_0000_0000_0000

  /** The text JavaScript's `String(n)` gives a safe integer: an optional
      minus sign followed by the decimal digits. */
  function IntToString(i: SafeInteger): string
  {
    if i < 0 then "-" + NatToString(-i) else NatToString(i)
  }

  /** Value of a string of decimal digits; the reference reading of `NatToString`. */
  function ParseDigits(s: string): nat
    requires forall i | 0 <= i < |s| :: IsDigit(s[i])
  {
    if |s| == 0 then 0
    else
      assert IsDigit(s[|s| - 1]);
      ParseDigits(s[..|s| - 1]) * 10 + (s[|s| - 1] as int - '0' as int)
  }

  /** Value of an optionally signed decimal numeral. */
  function ParseInt(s: string): int
    requires |s| >= 1
    requires s[0] == '-' || IsDigit(s[0])
    requires forall i | 1 <= i < |s| :: IsDigit(s[i])
  {
    if s[0] == '-' then 0 - ParseDigits(s[1..]) as int else ParseDigits(s)
  }

  /** Reading back the digits of `n` gives `n`. */
  lemma {:induction false} ParseNatToString(n: nat)
    ensures ParseDigits(NatToString(n)) == n
  {
    if n >= 10 {
      var s := NatToString(n);
      assert s[..|s| - 1] == NatToString(n / 10);
      ParseNatToString(n / 10);
    }
  }

  /** Reading back the rendering of a safe integer gives the integer: the
      rendering loses nothing, so distinct integers render differently. */
  lemma IntToStringRoundTrip(i: SafeInteger)
    ensures var s := IntToString(i);
      |s| >= 1 && (s[0] == '-' || IsDigit(s[0])) && (forall k | 1 <= k < |s| :: IsDigit(s[k]))
      && ParseInt(s) == i
  {
    if i < 0 {
      NegativeRoundTrip(-i);
    } else {
      ParseNatToString(i);
    }
  }

  /** The rendering of a negative integer is a minus sign and the digits of its magnitude. */
  lemma NegativeRoundTrip(n: nat)
    requires n > 0
    ensures var s := "-" + NatToString(n);
      s[0] == '-' && (forall k | 1 <= k < |s| :: IsDigit(s[k])) && ParseInt(s) == 0 - n as int
  {
    var s := "-" + NatToString(n);
    var digits := NatToString(n);
    assert s[1..] == digits;
    forall k | 1 <= k < |s| ensures IsDigit(s[k]) {
      assert s[k] == digits[k - 1];
    }
    ParseNatToString(n);
  }

}
