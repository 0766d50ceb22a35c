/** `str.split` and `str.join` on one separator character. */
module Text {
  import opened Sequences

  function Split(s: string, sep: char): (parts: seq<string>)
    ensures parts != []
  {
    if s == "" then [""]
    else if s[0] == sep then [""] + Split(s[1..], sep)
    else
      var rest := Split(s[1..], sep);
      [[s[0]] + rest[0]] + rest[1..]
  }

  function Join(parts: seq<string>, sep: char): string {
    if parts == [] then ""
    else if |parts| == 1 then parts[0]
    else Join(parts[..|parts| - 1], sep) + [sep] + Last(parts)
  }

  lemma {:induction false} JoinCons(first: string, rest: seq<string>, sep: char)
    requires rest != []
    ensures Join([first] + rest, sep) == first + [sep] + Join(rest, sep)
  {
    var all := [first] + rest;
    if |rest| > 1 {
      var init := rest[..|rest| - 1];
      JoinCons(first, init, sep);
      assert all[..|all| - 1] == [first] + init;
    } else {
      assert all[..1] == [first];
    }
  }

  lemma JoinPrepend(c: char, parts: seq<string>, sep: char)
    requires parts != []
    ensures Join([[c] + parts[0]] + parts[1..], sep) == [c] + Join(parts, sep)
  {
    if |parts| > 1 {
      JoinCons(parts[0], parts[1..], sep);
      JoinCons([c] + parts[0], parts[1..], sep);
      assert parts == [parts[0]] + parts[1..];
      assert [c] + (parts[0] + [sep] + Join(parts[1..], sep)) == ([c] + parts[0]) + [sep] + Join(parts[1..], sep);
    } else {
      assert [[c] + parts[0]] + parts[1..] == [[c] + parts[0]];
    }
  }

  /** Splitting and joining back changes nothing. */
  lemma {:induction false} JoinOfSplit(s: string, sep: char)
    ensures Join(Split(s, sep), sep) == s
  {
    if s == "" {
    } else {
      var rest := Split(s[1..], sep);
      JoinOfSplit(s[1..], sep);
      assert s == [s[0]] + s[1..];
      if s[0] == sep {
        JoinCons("", rest, sep);
      } else {
        JoinPrepend(s[0], rest, sep);
      }
    }
  }

  lemma {:induction false} SplitConcat(a: string, b: string, sep: char)
    ensures Split(a + [sep] + b, sep) == Split(a, sep) + Split(b, sep)
  {
    var all := a + [sep] + b;
    if a == "" {
      assert all == [sep] + b;
      assert all[1..] == b;
    } else {
      assert all[1..] == a[1..] + [sep] + b;
      SplitConcat(a[1..], b, sep);
    }
  }

  lemma {:induction false} SplitFree(s: string, sep: char)
    requires sep !in s
    ensures Split(s, sep) == [s]
  {
    if s == "" {
    } else {
      assert s[0] in s && s == [s[0]] + s[1..];
      SplitFree(s[1..], sep);
    }
  }

  lemma {:induction false} PartsAreFree(s: string, sep: char)
    ensures forall p :: p in Split(s, sep) ==> sep !in p
    ensures forall p, c :: p in Split(s, sep) && c in p ==> c in s
  {
    if s == "" {
    } else {
      PartsAreFree(s[1..], sep);
    }
  }

  /** The pieces of each part, in order. */
  function SplitAll(parts: seq<string>, sep: char): seq<string> {
    if parts == [] then [] else SplitAll(parts[..|parts| - 1], sep) + Split(Last(parts), sep)
  }

  /** Splitting what was joined gives back the parts, each split where it holds the separator itself. */
  lemma {:induction false} SplitOfJoin(parts: seq<string>, sep: char)
    requires parts != []
    ensures Split(Join(parts, sep), sep) == SplitAll(parts, sep)
  {
    if |parts| == 1 {
      assert parts[..0] == [] && SplitAll([], sep) + Split(parts[0], sep) == Split(parts[0], sep);
    } else {
      SplitOfJoin(parts[..|parts| - 1], sep);
      SplitConcat(Join(parts[..|parts| - 1], sep), Last(parts), sep);
    }
  }

  lemma {:induction false} SplitAllFree(parts: seq<string>, sep: char)
    requires forall p :: p in parts ==> sep !in p
    ensures SplitAll(parts, sep) == parts
  {
    if parts == [] {
    } else {
      assert Last(parts) in parts;
      SplitAllFree(parts[..|parts| - 1], sep);
      SplitFree(Last(parts), sep);
    }
  }

  lemma {:induction false} SplitAllConcat(a: seq<string>, b: seq<string>, sep: char)
    ensures SplitAll(a + b, sep) == SplitAll(a, sep) + SplitAll(b, sep)
  {
    if b == [] {
      assert a + b == a;
    } else {
      var init := b[..|b| - 1];
      assert (a + b)[..|a + b| - 1] == a + init;
      SplitAllConcat(a, init, sep);
    }
  }

  /** Parts without the separator survive joining and splitting. */
  lemma SplitOfJoinFree(parts: seq<string>, sep: char)
    requires parts != [] && forall p :: p in parts ==> sep !in p
    ensures Split(Join(parts, sep), sep) == parts
  {
    SplitOfJoin(parts, sep);
    SplitAllFree(parts, sep);
  }

  /** Two sequences of parts run together: the last of the one and the first of the other become one. */
  function Glue(x: seq<string>, y: seq<string>): seq<string>
    requires x != [] && y != []
  {
    x[..|x| - 1] + [Last(x) + y[0]] + y[1..]
  }

  lemma GlueEmpty(y: seq<string>)
    requires y != []
    ensures Glue([""], y) == y
  {
    assert [""][..0] == [] && "" + y[0] == y[0];
  }

  lemma GlueBehind(p: string, x: seq<string>, y: seq<string>)
    requires x != [] && y != []
    ensures Glue([p] + x, y) == [p] + Glue(x, y)
  {
    var z := [p] + x;
    assert z[..|z| - 1] == [p] + x[..|x| - 1] && Last(z) == Last(x);
  }

  lemma GlueFirst(c: char, x: seq<string>, y: seq<string>)
    requires x != [] && y != []
    ensures var whole := Glue(x, y); Glue([[c] + x[0]] + x[1..], y) == [[c] + whole[0]] + whole[1..]
  {
    var z, whole := [[c] + x[0]] + x[1..], Glue(x, y);
    if |x| == 1 {
      assert x == [x[0]] && z == [[c] + x[0]];
      assert whole[0] == x[0] + y[0] && whole[1..] == y[1..];
      assert [c] + (x[0] + y[0]) == ([c] + x[0]) + y[0];
    } else {
      GlueBehind(x[0], x[1..], y);
      GlueBehind([c] + x[0], x[1..], y);
      assert x == [x[0]] + x[1..];
    }
  }

  /** Splitting a concatenation. */
  lemma {:induction false} SplitAppend(a: string, b: string, sep: char)
    ensures Split(a + b, sep) == Glue(Split(a, sep), Split(b, sep))
  {
    if a == "" {
      assert a + b == b;
      GlueEmpty(Split(b, sep));
    } else {
      var x, y := Split(a[1..], sep), Split(b, sep);
      assert (a + b)[1..] == a[1..] + b && (a + b)[0] == a[0];
      SplitAppend(a[1..], b, sep);
      if a[0] == sep {
        GlueBehind("", x, y);
      } else {
        GlueFirst(a[0], x, y);
      }
    }
  }
}
