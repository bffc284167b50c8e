/** Character-level helpers: the price filter, the float() acceptance test,
    lower-casing and the case-insensitive label patterns of the financials tables. */
module Text {

  /** A character kept by `re.sub('[^\d\.]+', '', price)`: under Python 2 and without
      re.UNICODE, `\d` is the ASCII digits only. */
  predicate IsPriceChar(c: char) {
    '0' <= c <= '9' || c == '.'
  }

  predicate IsDigit(c: char) {
    '0' <= c <= '9'
  }

  /** The offer price with every character other than an ASCII digit or `.` removed. */
  function PriceDigits(s: string): (r: string)
    ensures |r| <= |s|
    ensures forall i :: 0 <= i < |r| ==> IsPriceChar(r[i])
  {
    if s == [] then []
    else if IsPriceChar(s[0]) then [s[0]] + PriceDigits(s[1..])
    else PriceDigits(s[1..])
  }

  /** The filter distributes over concatenation: it works character by character, in order. */
  lemma {:induction false} PriceDigitsAppend(a: string, b: string)
    ensures PriceDigits(a + b) == PriceDigits(a) + PriceDigits(b)
  {
    if a == [] {
      assert a + b == b;
    } else {
      assert (a + b)[0] == a[0];
      assert (a + b)[1..] == a[1..] + b;
      PriceDigitsAppend(a[1..], b);
    }
  }

  /** A string of price characters only is left as it is; hence the filter is idempotent. */
  lemma {:induction false} PriceDigitsKeepsPriceText(s: string)
    requires forall i :: 0 <= i < |s| ==> IsPriceChar(s[i])
    ensures PriceDigits(s) == s
  {
    if s != [] {
      PriceDigitsKeepsPriceText(s[1..]);
    }
  }

  lemma PriceDigitsIdempotent(s: string)
    ensures PriceDigits(PriceDigits(s)) == PriceDigits(s)
  {
  }

  /** Every price character of the input survives, as many times as it occurs. */
  lemma {:induction false} PriceDigitsCount(s: string, c: char)
    ensures multiset(PriceDigits(s))[c] == if IsPriceChar(c) then multiset(s)[c] else 0
  {
    if s == [] {
    } else {
      PriceDigitsCount(s[1..], c);
      assert s == [s[0]] + s[1..];
    }
  }

  lemma DollarPrice()
    ensures PriceDigits("$12.50") == "12.50"
  {
  }

  function CountChar(s: string, c: char): (n: nat)
    ensures n == multiset(s)[c]
  {
    if s == [] then 0
    else
      assert s == [s[0]] + s[1..];
      (if s[0] == c then 1 else 0) + CountChar(s[1..], c)
  }

  predicate HasDigit(s: string) {
    exists i :: 0 <= i < |s| && IsDigit(s[i])
  }

  /** Whether Python's `float()` accepts a string made of digits and `.` only:
      it needs at least one digit and at most one decimal point ("1.", ".5" and "12.50"
      parse; "", "." and "1.2.3" raise ValueError). */
  predicate ParsesAsFloat(s: string) {
    HasDigit(s) && CountChar(s, '.') <= 1
  }

  lemma DollarPriceParses()
    ensures ParsesAsFloat(PriceDigits("$12.50"))
  {
    DollarPrice();
    assert IsDigit("12.50"[0]);
    assert CountChar("12.50", '.') == 1 by {
      assert "12.50"[1..] == "2.50";
      assert "2.50"[1..] == ".50";
      assert ".50"[1..] == "50";
      assert "50"[1..] == "0";
      assert "0"[1..] == "";
    }
  }

  /** `float()` accepts the filtered price exactly when the price holds a digit and at most
      one `.`: the filter drops neither. */
  lemma PriceParses(s: string)
    ensures ParsesAsFloat(PriceDigits(s)) <==> HasDigit(s) && CountChar(s, '.') <= 1
  {
    var t := PriceDigits(s);
    PriceDigitsCount(s, '.');
    forall d | IsDigit(d)
      ensures multiset(t)[d] == multiset(s)[d]
    {
      PriceDigitsCount(s, d);
    }
    HasDigitCount(s);
    HasDigitCount(t);
  }

  /** A text has a digit exactly when some digit occurs in it. */
  lemma HasDigitCount(s: string)
    ensures HasDigit(s) <==> exists d :: IsDigit(d) && multiset(s)[d] > 0
  {
    if HasDigit(s) {
      var i :| 0 <= i < |s| && IsDigit(s[i]);
      assert s[i] in multiset(s);
    }
    if exists d :: IsDigit(d) && multiset(s)[d] > 0 {
      var d :| IsDigit(d) && multiset(s)[d] > 0;
      assert d in s;
    }
  }

  /** A price without a digit, such as "TBD" or "N/A.", never parses. */
  lemma NoDigitPriceDoesNotParse(s: string)
    requires !HasDigit(s)
    ensures !ParsesAsFloat(PriceDigits(s))
  {
    PriceParses(s);
  }

  /** Text that Python 2 can format into a `str` template: its characters are all ASCII. */
  predicate IsAscii(s: string) {
    forall i :: 0 <= i < |s| ==> s[i] as int < 128
  }

  /** ASCII lower-casing of one character. */
  function LowerChar(c: char): (r: char)
    ensures !('A' <= r <= 'Z')
    ensures 'A' <= c <= 'Z' ==> r as int == c as int + 32
    ensures 'a' <= c <= 'z' || !('A' <= c <= 'Z') ==> r == c
  {
    if 'A' <= c <= 'Z' then (c as int - 'A' as int + 'a' as int) as char else c
  }

  /** `s.lower()`, restricted to the ASCII letters. */
  function Lower(s: string): (r: string)
    ensures |r| == |s|
    ensures forall i :: 0 <= i < |s| ==> r[i] == LowerChar(s[i])
  {
    if s == [] then [] else [LowerChar(s[0])] + Lower(s[1..])
  }

  lemma LowerIdempotent(s: string)
    ensures Lower(Lower(s)) == Lower(s)
  {
  }

  /** `s` starts with `p`, ignoring the case of ASCII letters. */
  predicate StartsWithCI(s: string, p: string)
  {
    |p| <= |s| && forall k :: 0 <= k < |p| ==> LowerChar(s[k]) == LowerChar(p[k])
  }

  /** `re.compile(p, re.I).search(s)` for a literal pattern `p`: some suffix of `s` starts
      with `p`. */
  predicate ContainsCI(s: string, p: string)
    decreases |s|
  {
    StartsWithCI(s, p) || (s != [] && ContainsCI(s[1..], p))
  }

  /** The search scans every position, and only the positions, where `p` occurs. */
  lemma {:induction false} ContainsCIAt(s: string, p: string)
    ensures ContainsCI(s, p) <==> exists i :: 0 <= i <= |s| && StartsWithCI(s[i..], p)
    decreases |s|
  {
    if s != [] {
      ContainsCIAt(s[1..], p);
      assert forall i :: 1 <= i <= |s| ==> s[i..] == s[1..][i - 1..];
      if ContainsCI(s[1..], p) {
        var i :| 0 <= i <= |s[1..]| && StartsWithCI(s[1..][i..], p);
        assert s[i + 1..] == s[1..][i..];
      }
    } else {
      assert s[0..] == s;
    }
    assert s[0..] == s;
  }

  /** `re.compile('stockholders.*equity', re.I).search(s)`. */
  predicate StockholdersEquity(s: string) {
    SearchThenCI(s, "stockholders", "equity")
  }

  /** `re.compile(p + '.*' + q, re.I).search(s)` for literal `p` and `q`. */
  predicate SearchThenCI(s: string, p: string, q: string)
    decreases |s|
  {
    (StartsWithCI(s, p) && FollowsCI(s[|p|..], q)) || (s != [] && SearchThenCI(s[1..], p, q))
  }

  /** `.*q` matched at the start of `s`: a run of characters other than a newline (`.` does
      not match one), then `q`. */
  predicate FollowsCI(s: string, q: string)
    decreases |s|
  {
    StartsWithCI(s, q) || (s != [] && s[0] != '\n' && FollowsCI(s[1..], q))
  }

  /** No `\n` in `s`: what `.` matches. */
  predicate NoNewline(s: string) {
    forall k :: 0 <= k < |s| ==> s[k] != '\n'
  }

  /** `q` starts at position `j` of `s`, with no newline before it. */
  predicate FollowsAt(s: string, q: string, j: int) {
    0 <= j <= |s| && NoNewline(s[..j]) && StartsWithCI(s[j..], q)
  }

  /** `.*q` matches at the start of `s` exactly when `q` starts at some position with no
      newline before it. */
  lemma FollowsCIAt(s: string, q: string)
    ensures FollowsCI(s, q) <==> exists j :: FollowsAt(s, q, j)
  {
    if FollowsCI(s, q) {
      FollowsCIWitness(s, q);
    }
    if exists j :: FollowsAt(s, q, j) {
      var j :| FollowsAt(s, q, j);
      FollowsCIFromWitness(s, q, j);
    }
  }

  lemma {:induction false} FollowsCIWitness(s: string, q: string)
    requires FollowsCI(s, q)
    ensures exists j :: FollowsAt(s, q, j)
    decreases |s|
  {
    if StartsWithCI(s, q) {
      assert s[..0] == [] && s[0..] == s;
      assert FollowsAt(s, q, 0);
    } else {
      FollowsCIWitness(s[1..], q);
      var j :| FollowsAt(s[1..], q, j);
      assert s[j + 1..] == s[1..][j..];
      assert s[..j + 1] == [s[0]] + s[1..][..j];
      assert FollowsAt(s, q, j + 1);
    }
  }

  lemma {:induction false} FollowsCIFromWitness(s: string, q: string, j: int)
    requires FollowsAt(s, q, j)
    ensures FollowsCI(s, q)
    decreases j
  {
    if j == 0 {
      assert s[0..] == s;
    } else {
      assert s[0] == s[..j][0];
      assert s[1..][j - 1..] == s[j..];
      assert s[1..][..j - 1] == s[..j][1..];
      FollowsCIFromWitness(s[1..], q, j - 1);
    }
  }

  /** `p` starts at position `i` of `s`, and `.*q` matches right after it. */
  predicate SearchAt(s: string, p: string, q: string, i: int) {
    0 <= i <= |s| && StartsWithCI(s[i..], p) && FollowsCI(s[i + |p|..], q)
  }

  /** `p.*q` is found in `s` exactly when `p` starts at some position and `.*q` matches
      right after it. */
  lemma {:induction false} SearchThenCIAt(s: string, p: string, q: string)
    ensures SearchThenCI(s, p, q) <==> exists i :: SearchAt(s, p, q, i)
    decreases |s|
  {
    if SearchThenCI(s, p, q) {
      if StartsWithCI(s, p) && FollowsCI(s[|p|..], q) {
        assert s[0..] == s;
        assert SearchAt(s, p, q, 0);
      } else {
        SearchThenCIAt(s[1..], p, q);
        var i :| SearchAt(s[1..], p, q, i);
        assert s[i + 1..] == s[1..][i..];
        assert s[i + 1 + |p|..] == s[1..][i + |p|..];
        assert SearchAt(s, p, q, i + 1);
      }
    }
    if exists i :: SearchAt(s, p, q, i) {
      var i :| SearchAt(s, p, q, i);
      if i == 0 {
        assert s[0..] == s;
      } else {
        assert s[1..][i - 1..] == s[i..];
        assert s[1..][i - 1 + |p|..] == s[i + |p|..];
        assert SearchAt(s[1..], p, q, i - 1);
        SearchThenCIAt(s[1..], p, q);
      }
    }
  }
}
