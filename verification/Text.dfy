/** Python's str.replace and the facts about it that the encoders need. */
module Text {
  predicate StartsWith(s: string, p: string) {
    |p| <= |s| && forall i | 0 <= i < |p| :: s[i] == p[i]
  }

  // Leftmost, non-overlapping occurrences.
  function Replace(s: string, old_: string, new_: string): string
    requires old_ != ""
    decreases |s|
  {
    if s == "" then ""
    else if StartsWith(s, old_) then new_ + Replace(s[|old_|..], old_, new_)
    else [s[0]] + Replace(s[1..], old_, new_)
  }

  // A one-character replacement works on each part of a string by itself.
  lemma {:induction false} ReplaceCharConcat(a: string, b: string, c: char, new_: string)
    ensures Replace(a + b, [c], new_) == Replace(a, [c], new_) + Replace(b, [c], new_)
    decreases |a|
  {
    if a == "" {
      assert a + b == b;
    } else {
      assert (a + b)[1..] == a[1..] + b;
      assert StartsWith(a + b, [c]) == StartsWith(a, [c]) == (a[0] == c);
      ReplaceCharConcat(a[1..], b, c, new_);
      assert [a[0]] + (Replace(a[1..], [c], new_) + Replace(b, [c], new_))
          == [a[0]] + Replace(a[1..], [c], new_) + Replace(b, [c], new_);
      assert new_ + (Replace(a[1..], [c], new_) + Replace(b, [c], new_))
          == new_ + Replace(a[1..], [c], new_) + Replace(b, [c], new_);
    }
  }

  lemma ReplaceCharOne(x: char, c: char, new_: string)
    ensures Replace([x], [c], new_) == if x == c then new_ else [x]
  {
    assert [x][1..] == "";
    if StartsWith([x], [c]) { assert [x][0] == [c][0]; }
    assert new_ + Replace("", [c], new_) == new_;
    assert [x] + Replace("", [c], new_) == [x];
  }

  lemma ReplaceHit(rest: string, old_: string, new_: string)
    requires old_ != ""
    ensures Replace(old_ + rest, old_, new_) == new_ + Replace(rest, old_, new_)
  {
    assert StartsWith(old_ + rest, old_);
    assert (old_ + rest)[|old_|..] == rest;
  }

  // A character that cannot start an occurrence is copied.
  lemma ReplaceMiss(x: char, rest: string, old_: string, new_: string)
    requires old_ != "" && !StartsWith([x] + rest, old_)
    ensures Replace([x] + rest, old_, new_) == [x] + Replace(rest, old_, new_)
  {
    assert ([x] + rest)[1..] == rest;
  }

  // What str.isspace() and the regular expression class \s accept.
  predicate IsSpace(c: char) {
    var n := c as int;
    (9 <= n <= 13) || (28 <= n <= 32) || n == 0x85 || n == 0xA0 || n == 0x1680 || (0x2000 <= n <= 0x200A)
    || n == 0x2028 || n == 0x2029 || n == 0x202F || n == 0x205F || n == 0x3000
  }

  function Strip(s: string): string
    decreases |s|
  {
    if s == "" then ""
    else if IsSpace(s[0]) then Strip(s[1..])
    else if IsSpace(s[|s| - 1]) then Strip(s[..|s| - 1])
    else s
  }

  function Decimal(n: nat): string {
    if n < 10 then ["0123456789"[n]] else Decimal(n / 10) + ["0123456789"[n % 10]]
  }

  // The number a string of digits stands for.
  function NumberOf(digits: string): int {
    if digits == "" then 0 else 10 * NumberOf(digits[..|digits| - 1]) + (digits[|digits| - 1] as int - '0' as int)
  }

  predicate AllDigits(s: string) { forall i | 0 <= i < |s| :: '0' <= s[i] <= '9' }

  lemma DigitReads(d: nat)
    requires d < 10
    ensures '0' <= "0123456789"[d] <= '9' && "0123456789"[d] as int == 48 + d
  {
  }

  /** A number is written in digits, without leading zeros, and reads back. */
  lemma {:induction false} DecimalReads(n: nat)
    ensures Decimal(n) != "" && AllDigits(Decimal(n)) && NumberOf(Decimal(n)) == n
    ensures Decimal(n)[0] == '0' ==> n == 0
  {
    if n < 10 {
      DigitReads(n);
      assert Decimal(n)[..0] == "";
    } else {
      DecimalReads(n / 10);
      DigitReads(n % 10);
      var front := Decimal(n / 10);
      assert Decimal(n)[..|front|] == front;
    }
  }

  // Nothing but white space.
  predicate AllBlank(s: string) { forall i | 0 <= i < |s| :: IsSpace(s[i]) }

  // No white space at either end.
  predicate NoBlankEnds(s: string) { s == "" || (!IsSpace(s[0]) && !IsSpace(s[|s| - 1])) }

  lemma CharInFront(s: string, a: string, b: string, c: string)
    requires s != "" && s[1..] == a + b + c
    ensures s == [s[0]] + a + b + c
  {
  }

  lemma CharBehind(s: string, a: string, b: string, c: string)
    requires s != "" && s[..|s| - 1] == a + b + c
    ensures s == a + b + (c + [s[|s| - 1]])
  {
  }

  /** Trimming takes white space off both ends and nothing else. */
  lemma {:induction false} StripTrims(s: string) returns (front: string, back: string)
    ensures s == front + Strip(s) + back && AllBlank(front) && AllBlank(back) && NoBlankEnds(Strip(s))
    decreases |s|
  {
    hide IsSpace;
    if s == "" {
      front, back := "", "";
    } else if IsSpace(s[0]) {
      front, back := StripTrims(s[1..]);
      CharInFront(s, front, Strip(s[1..]), back);
      front := [s[0]] + front;
    } else if IsSpace(s[|s| - 1]) {
      front, back := StripTrims(s[..|s| - 1]);
      CharBehind(s, front, Strip(s[..|s| - 1]), back);
      back := back + [s[|s| - 1]];
    } else {
      front, back := "", "";
    }
  }
}
