/** Python's whitespace: `str.strip` and the non-whitespace content ("ink") of a string. */
module Whitespace {
  import opened Sequences

  /** `str.isspace` on one character, which is also what `\s` matches. */
  predicate IsSpace(c: char) {
    var n := c as int;
    || 0x09 <= n <= 0x0D
    || 0x1C <= n <= 0x20
    || n == 0x85
    || n == 0xA0
    || n == 0x1680
    || 0x2000 <= n <= 0x200A
    || n == 0x2028
    || n == 0x2029
    || n == 0x202F
    || n == 0x205F
    || n == 0x3000
  }

  function LStrip(s: string): string {
    if s != "" && IsSpace(s[0]) then LStrip(s[1..]) else s
  }

  function RStrip(s: string): string {
    if s != "" && IsSpace(Last(s)) then RStrip(s[..|s| - 1]) else s
  }

  function Strip(s: string): string {
    RStrip(LStrip(s))
  }

  /** What is left of a string when whitespace is ignored. */
  function Ink(s: string): string {
    if s == "" then "" else if IsSpace(s[0]) then Ink(s[1..]) else [s[0]] + Ink(s[1..])
  }

  lemma {:induction false} InkConcat(a: string, b: string)
    ensures Ink(a + b) == Ink(a) + Ink(b)
  {
    if a == "" {
      assert a + b == b;
    } else {
      assert (a + b)[1..] == a[1..] + b;
      InkConcat(a[1..], b);
    }
  }

  lemma {:induction false} BlankHasNoInk(s: string)
    requires forall k :: 0 <= k < |s| ==> IsSpace(s[k])
    ensures Ink(s) == ""
  {
    if s == "" {
    } else {
      BlankHasNoInk(s[1..]);
    }
  }

  lemma InkAtEnd(s: string)
    requires s != "" && !IsSpace(Last(s))
    ensures Ink(s) != ""
  {
    InkConcat(s[..|s| - 1], [Last(s)]);
    assert s == s[..|s| - 1] + [Last(s)];
  }

  /** No whitespace at either end. */
  predicate Trimmed(s: string) {
    s != "" ==> !IsSpace(s[0]) && !IsSpace(Last(s))
  }

  lemma {:induction false} LStripFacts(s: string)
    ensures |LStrip(s)| <= |s| && LStrip(s) == s[|s| - |LStrip(s)|..]
    ensures LStrip(s) != "" ==> !IsSpace(LStrip(s)[0])
    ensures Ink(LStrip(s)) == Ink(s)
  {
    if s == "" || !IsSpace(s[0]) {
    } else {
      LStripFacts(s[1..]);
    }
  }

  lemma {:induction false} RStripFacts(s: string)
    ensures |RStrip(s)| <= |s| && RStrip(s) == s[..|RStrip(s)|]
    ensures RStrip(s) != "" ==> !IsSpace(Last(RStrip(s)))
    ensures Ink(RStrip(s)) == Ink(s)
  {
    if s == "" || !IsSpace(Last(s)) {
    } else {
      RStripFacts(s[..|s| - 1]);
      assert s == s[..|s| - 1] + [Last(s)];
      InkConcat(s[..|s| - 1], [Last(s)]);
    }
  }

  lemma StripFacts(s: string)
    ensures |Strip(s)| <= |s| && Trimmed(Strip(s)) && Ink(Strip(s)) == Ink(s)
    ensures Strip(s) == "" <==> Ink(s) == ""
  {
    LStripFacts(s);
    RStripFacts(LStrip(s));
    if Strip(s) != "" {
      assert Strip(s)[0] == LStrip(s)[0];
      assert Ink(Strip(s))[0] == Strip(s)[0];
    }
  }

  lemma {:induction false} LStripConcat(a: string, b: string)
    requires Ink(a) != ""
    ensures LStrip(a + b) == LStrip(a) + b
  {
    if !IsSpace(a[0]) {
    } else {
      assert (a + b)[1..] == a[1..] + b;
      LStripConcat(a[1..], b);
    }
  }

  lemma {:induction false} RStripConcat(a: string, b: string)
    requires a != "" && !IsSpace(Last(a))
    ensures RStrip(a + b) == a + RStrip(b)
  {
    if b == "" {
      assert a + b == a;
    } else if IsSpace(Last(b)) {
      assert (a + b)[..|a + b| - 1] == a + b[..|b| - 1];
      RStripConcat(a, b[..|b| - 1]);
    }
  }

  lemma InkOfTrimmed(s: string)
    requires s != "" && !IsSpace(s[0])
    ensures Ink(s) != ""
  {}

  lemma StripTrimmed(s: string)
    requires Trimmed(s)
    ensures Strip(s) == s
  {}
}
