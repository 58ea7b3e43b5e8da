/**
 * The handful of Python `str` operations the core relies on: `strip`,
 * `lower`, `in` (substring), `count`, `find` and decimal rendering of an int.
 */
module Text {

  /** `str.isspace` on one character (the Latin-1 part of Python's table). */
  predicate IsSpace(c: char)
  {
    c as int in {9, 10, 11, 12, 13, 28, 29, 30, 31, 32, 133, 160}
  }

  /** Neither end of `s` is whitespace. */
  predicate Stripped(s: string)
  {
    s == [] || (!IsSpace(s[0]) && !IsSpace(s[|s| - 1]))
  }

  function LStrip(s: string): (r: string)
    ensures r == [] || !IsSpace(r[0])
    ensures |r| <= |s|
  {
    if s != [] && IsSpace(s[0]) then LStrip(s[1..]) else s
  }

  /** What `LStrip` leaves is a suffix of its input. */
  lemma {:induction false} LStripSuffix(s: string)
    ensures LStrip(s) == s[|s| - |LStrip(s)|..]
  {
    if s != [] && IsSpace(s[0]) {
      LStripSuffix(s[1..]);
    }
  }

  function RStrip(s: string): (r: string)
    ensures r == [] || !IsSpace(r[|r| - 1])
    ensures |r| <= |s|
  {
    if s != [] && IsSpace(s[|s| - 1]) then RStrip(s[..|s| - 1]) else s
  }

  /** What `RStrip` leaves is a prefix of its input. */
  lemma {:induction false} RStripPrefix(s: string)
    ensures RStrip(s) == s[..|RStrip(s)|]
  {
    if s != [] && IsSpace(s[|s| - 1]) {
      RStripPrefix(s[..|s| - 1]);
    }
  }

  /** `s.strip()`: the middle of `s` without whitespace at either end. */
  function Strip(s: string): (r: string)
    ensures Stripped(r)
    ensures |r| <= |s|
  {
    var l := LStrip(s);
    var r := RStrip(l);
    RStripPrefix(l);
    assert r != [] ==> r[0] == l[0];
    r
  }

  /** `Strip(s)` is the slice of `s` starting where `LStrip` stops. */
  lemma StripSlice(s: string)
    ensures var a := |s| - |LStrip(s)|; Strip(s) == s[a..a + |Strip(s)|]
  {
    var l := LStrip(s);
    LStripSuffix(s);
    RStripPrefix(l);
  }

  /** Stripping leaves a string that is already stripped alone. */
  lemma StripStripped(s: string)
    requires Stripped(s)
    ensures Strip(s) == s
  {
  }

  /** `s.strip()` is idempotent. */
  lemma StripIdempotent(s: string)
    ensures Strip(Strip(s)) == Strip(s)
  {
    StripStripped(Strip(s));
  }

  /** `c.lower()` for ASCII letters; every other character is unchanged. */
  function LowerChar(c: char): char
  {
    if 'A' <= c <= 'Z' then (c as int + 32) as char else c
  }

  /** `s.lower()`. */
  function Lower(s: string): (r: string)
    ensures |r| == |s|
    ensures forall i {:trigger r[i]} :: 0 <= i < |s| ==> r[i] == LowerChar(s[i])
  {
    if s == [] then [] else [LowerChar(s[0])] + Lower(s[1..])
  }

  /** Lowering never turns whitespace into non-whitespace or back. */
  lemma LowerKeepsStripped(s: string)
    requires Stripped(s)
    ensures Stripped(Lower(s))
  {
  }

  /** `s.startswith(p)`. */
  predicate IsPrefix(p: string, s: string)
  {
    |p| <= |s| && s[..|p|] == p
  }

  /** `sub in s` for two strings: `sub` occurs somewhere in `s`. */
  predicate Contains(s: string, sub: string)
    decreases |s|
  {
    IsPrefix(sub, s) || (s != [] && Contains(s[1..], sub))
  }

  /** `Contains` holds exactly when `sub` is some slice of `s`. */
  lemma {:induction false} ContainsSlice(s: string, sub: string, i: nat)
    requires i + |sub| <= |s| && s[i..i + |sub|] == sub
    ensures Contains(s, sub)
    decreases i
  {
    if i > 0 {
      assert s[1..][i - 1..i - 1 + |sub|] == s[i..i + |sub|];
      ContainsSlice(s[1..], sub, i - 1);
    }
  }

  /** A string occurs at the end of any string it is appended to. */
  lemma ContainsSuffix(a: string, b: string)
    ensures Contains(a + b, b)
  {
    assert (a + b)[|a|..|a| + |b|] == b;
    ContainsSlice(a + b, b, |a|);
  }

  /** A string occurring in `a` still occurs in `a + b`. */
  lemma {:induction false} ContainsExtend(a: string, b: string, sub: string)
    requires Contains(a, sub)
    ensures Contains(a + b, sub)
    decreases |a|
  {
    if IsPrefix(sub, a) {
      assert (a + b)[..|sub|] == a[..|sub|];
    } else {
      assert (a + b)[1..] == a[1..] + b;
      ContainsExtend(a[1..], b, sub);
    }
  }

  /** `s.count(c)` for a one-character `c`. */
  function CountChar(s: string, c: char): (n: nat)
    ensures n <= |s|
  {
    if s == [] then 0 else (if s[0] == c then 1 else 0) + CountChar(s[1..], c)
  }

  lemma {:induction false} CountCharAppend(a: string, b: string, c: char)
    ensures CountChar(a + b, c) == CountChar(a, c) + CountChar(b, c)
    decreases |a|
  {
    if a != [] {
      assert (a + b)[1..] == a[1..] + b;
      CountCharAppend(a[1..], b, c);
    } else {
      assert a + b == b;
    }
  }

  /**
   * `s.find(c, start)`: the first index at or after `start` holding `c`,
   * or -1 when there is none.
   */
  function FindFrom(s: string, c: char, start: nat): (k: int)
    ensures k == -1 || (start <= k < |s| && s[k] == c)
    ensures k == -1 ==> forall j :: start <= j < |s| ==> s[j] != c
    ensures k != -1 ==> forall j :: start <= j < k ==> s[j] != c
    decreases |s| - start
  {
    if start >= |s| then -1
    else if s[start] == c then start
    else FindFrom(s, c, start + 1)
  }

  /** One decimal digit. */
  function DigitChar(d: nat): char
    requires d < 10
  {
    "0123456789"[d]
  }

  /** `str(n)` for a non-negative int: its decimal digits, no leading zero. */
  function NatToString(n: nat): (r: string)
    ensures |r| >= 1
    ensures forall i :: 0 <= i < |r| ==> '0' <= r[i] <= '9'
    ensures |r| > 1 ==> r[0] != '0'
  {
    if n < 10 then [DigitChar(n)] else NatToString(n / 10) + [DigitChar(n % 10)]
  }

  /**
   * The accumulation both `states_for_line` loops perform for one variable:
   * each text is appended followed by a space, unless it already occurs as a
   * substring of what has been accumulated so far.
   */
  function JoinUnseen(texts: seq<string>): string
  {
    if texts == [] then ""
    else
      var acc := JoinUnseen(texts[..|texts| - 1]);
      var t := texts[|texts| - 1];
      if Contains(acc, t) then acc else acc + t + " "
  }

  /** The empty string occurs in every string. */
  lemma EmptyContained(s: string)
    ensures Contains(s, "")
  {
  }

  /** Nothing but the empty string occurs in the empty string. */
  lemma NothingInEmpty(sub: string)
    requires sub != []
    ensures !Contains("", sub)
  {
  }

  /** The accumulation is empty exactly when there is nothing to accumulate. */
  lemma {:induction false} JoinUnseenEmpty(texts: seq<string>)
    requires forall i :: 0 <= i < |texts| ==> texts[i] != []
    ensures JoinUnseen(texts) == "" <==> texts == []
  {
    if texts != [] {
      var acc := JoinUnseen(texts[..|texts| - 1]);
      var t := texts[|texts| - 1];
      if acc == "" {
        NothingInEmpty(t);
      }
    }
  }

  /** The accumulation ends with a space whenever it is not empty. */
  lemma {:induction false} JoinUnseenEndsWithSpace(texts: seq<string>)
    ensures JoinUnseen(texts) != "" ==> JoinUnseen(texts)[|JoinUnseen(texts)| - 1] == ' '
  {
    if texts != [] {
      JoinUnseenEndsWithSpace(texts[..|texts| - 1]);
    }
  }

  /** Every text occurs in the accumulation, whether appended or already present. */
  lemma {:induction false} JoinUnseenContainsAll(texts: seq<string>)
    ensures forall i :: 0 <= i < |texts| ==> Contains(JoinUnseen(texts), texts[i])
  {
    if texts != [] {
      var init := texts[..|texts| - 1];
      var acc := JoinUnseen(init);
      var t := texts[|texts| - 1];
      JoinUnseenContainsAll(init);
      forall i | 0 <= i < |texts|
        ensures Contains(JoinUnseen(texts), texts[i])
      {
        if i < |texts| - 1 {
          assert texts[i] == init[i];
          if !Contains(acc, t) {
            ContainsExtend(acc, t + " ", texts[i]);
            assert acc + t + " " == acc + (t + " ");
          }
        } else if !Contains(acc, t) {
          var whole := acc + t + " ";
          assert whole[|acc|..|acc| + |t|] == t;
          ContainsSlice(whole, t, |acc|);
        }
      }
    }
  }
}
