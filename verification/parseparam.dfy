/**
 * `parseparam`, the `;`-separated parameter splitter of the HTML report
 * example (the algorithm of MIME parameter lists, section 5.1 of RFC 2045):
 * a `;` inside an open double quote does not end a field, and in a field of
 * the form `key=value` the key is stripped and lowercased and the value
 * stripped.
 */
module ParamParse {
  import opened Text

  /**
   * `t.count('\\"')`: the backslash-quote pairs of `t`, scanned left to
   * right without overlap.  Each pair holds a quote, so there are never more
   * pairs than quotes.
   */
  function EscapedQuotes(t: string): (n: nat)
    ensures n <= CountChar(t, '"')
    decreases |t|
  {
    if |t| < 2 then 0
    else if t[0] == '\\' && t[1] == '"' then
      assert t[1..][1..] == t[2..];
      1 + EscapedQuotes(t[2..])
    else EscapedQuotes(t[1..])
  }

  /**
   * `(s.count('"', 0, end) - s.count('\\"', 0, end)) % 2`: an odd number of
   * unescaped quotes precedes position `end`, so a `;` there is quoted.
   */
  predicate QuoteOpen(s: string, end: nat)
    requires end <= |s|
  {
    (CountChar(s[..end], '"') - EscapedQuotes(s[..end])) % 2 == 1
  }

  /**
   * The inner `while`: from the `;` at `end`, move to the next `;` as long
   * as the current one is quoted.  A `;` at position 0 is never skipped.
   */
  function SkipQuoted(s: string, end: int): (e: int)
    requires end == -1 || (0 <= end < |s| && s[end] == ';')
    ensures e == -1 || (end <= e < |s| && s[e] == ';')
    decreases if end < 0 then 0 else |s| - end + 1
  {
    if end > 0 && QuoteOpen(s, end) then SkipQuoted(s, FindFrom(s, ';', end + 1)) else end
  }

  /**
   * The inner loop stops at the first `;` from `end` on that is at position
   * 0 or not quoted, and every `;` it passes over is quoted.
   */
  lemma {:induction false} SkipQuotedSpec(s: string, end: int)
    requires end == -1 || (0 <= end < |s| && s[end] == ';')
    ensures var e := SkipQuoted(s, end);
      && (e != -1 ==> e == 0 || !QuoteOpen(s, e))
      && (end == -1 ==> e == -1)
      && (end >= 0 ==> forall j :: end <= j < (if e == -1 then |s| else e) && 0 < j && s[j] == ';' ==> QuoteOpen(s, j))
    decreases if end < 0 then 0 else |s| - end + 1
  {
    if end > 0 && QuoteOpen(s, end) {
      var next := FindFrom(s, ';', end + 1);
      SkipQuotedSpec(s, next);
    }
  }

  /**
   * Where the current field ends: at a leading `;`, else at the first `;`
   * with an even number of unescaped quotes before it, else at the end of
   * the text.
   */
  function FieldEnd(t: string): (e: nat)
    ensures e <= |t|
    ensures e < |t| ==> t[e] == ';'
  {
    var e := SkipQuoted(t, FindFrom(t, ';', 0));
    if e < 0 then |t| else e
  }

  /**
   * A field ends at a leading `;`, or at an unquoted `;`, or at the end of
   * the text, and every `;` inside it is quoted.
   */
  lemma FieldEndSpec(t: string)
    ensures var e := FieldEnd(t);
      && (e < |t| ==> e == 0 || !QuoteOpen(t, e))
      && (t != [] && t[0] == ';' ==> e == 0)
      && (forall j :: 0 < j < e && t[j] == ';' ==> QuoteOpen(t, j))
  {
    var k := FindFrom(t, ';', 0);
    SkipQuotedSpec(t, k);
  }

  /** `f[:i].strip().lower() + '=' + f[i+1:].strip()` for the `=` at `i`. */
  function KeyValue(f: string, i: nat): string
    requires i < |f|
  {
    Lower(Strip(f[..i])) + "=" + Strip(f[i + 1..])
  }

  /** The `=` rewriting of one field: key stripped and lowercased, value stripped. */
  function Normalise(f: string): string
  {
    var i := FindFrom(f, '=', 0);
    if i < 0 then f else KeyValue(f, i)
  }

  /** `'=' in f` decides which branch of the rewriting applies. */
  lemma NormaliseCases(f: string)
    ensures '=' in f ==> 0 <= FindFrom(f, '=', 0) < |f| && Normalise(f) == KeyValue(f, FindFrom(f, '=', 0))
    ensures '=' !in f ==> Normalise(f) == f
  {
    if '=' in f {
      var j :| 0 <= j < |f| && f[j] == '=';
    }
  }

  /** The entry appended for a field: `f.strip()` after the rewriting. */
  function Element(f: string): string
  {
    Strip(Normalise(f))
  }

  /**
   * The fields the outer loop still cuts from a remaining text `s`, before
   * they are rewritten: one per leading `;`, each up to where it ends.
   */
  function RawFrom(s: string): (r: seq<string>)
    ensures r != [] <==> s != [] && s[0] == ';'
    decreases |s|
  {
    if s == [] || s[0] != ';' then []
    else
      var t := s[1..];
      var end := FieldEnd(t);
      [t[..end]] + RawFrom(t[end..])
  }

  /** Each field rewritten and stripped, as the outer loop appends it. */
  function Fields(pieces: seq<string>): (r: seq<string>)
    ensures |r| == |pieces|
  {
    if pieces == [] then [] else Fields(pieces[..|pieces| - 1]) + [Element(pieces[|pieces| - 1])]
  }

  /** The entry at position `i` is the rewritten field at that position. */
  lemma {:induction false} FieldAt(pieces: seq<string>, i: nat)
    requires i < |pieces|
    ensures Fields(pieces)[i] == Element(pieces[i])
  {
    var init := pieces[..|pieces| - 1];
    if i < |init| {
      FieldAt(init, i);
      assert Fields(pieces)[i] == Fields(init)[i];
    }
  }

  lemma FieldsSpec(pieces: seq<string>)
    ensures forall i :: 0 <= i < |pieces| ==> Fields(pieces)[i] == Element(pieces[i])
  {
    forall i | 0 <= i < |pieces|
      ensures Fields(pieces)[i] == Element(pieces[i])
    {
      FieldAt(pieces, i);
    }
  }

  lemma SnocAssoc(a: seq<string>, x: string, b: seq<string>)
    ensures a + ([x] + b) == (a + [x]) + b
  {
  }

  lemma Pair<T>(x: T, y: T)
    ensures [] + [x] == [x] && [x] + [y] == [x, y]
  {
  }

  lemma FieldsSnoc(pieces: seq<string>, x: string)
    ensures Fields(pieces + [x]) == Fields(pieces) + [Element(x)]
  {
    assert (pieces + [x])[..|pieces|] == pieces;
  }

  /** `parseparam(s)`: at least one entry, each of them stripped. */
  function ParamList(s: string): (r: seq<string>)
    ensures |r| >= 1
    ensures forall i :: 0 <= i < |r| ==> Stripped(r[i])
  {
    FieldsSpec(RawFrom(";" + s));
    Fields(RawFrom(";" + s))
  }

  /** Where the inner loop stops is where the field ends. */
  lemma FieldEndReached(s: string, end: int)
    requires end == -1 || (0 <= end < |s| && s[end] == ';')
    requires !(end > 0 && QuoteOpen(s, end))
    requires SkipQuoted(s, end) == SkipQuoted(s, FindFrom(s, ';', 0))
    ensures FieldEnd(s) == if end < 0 then |s| else end
  {
  }

  /** One step of the outer loop from a leading `;`. */
  lemma RawFromStep(s: string)
    requires s != [] && s[0] == ';'
    ensures var t := s[1..]; RawFrom(s) == [t[..FieldEnd(t)]] + RawFrom(t[FieldEnd(t)..])
  {
  }

  method ParseParam(input: string) returns (plist: seq<string>)
    ensures plist == ParamList(input)
  {
    ghost var done: seq<string> := [];
    var s := ";" + input;
    plist := [];
    // `s[:1] == ';'`
    while s != [] && s[0] == ';'
      invariant done + RawFrom(s) == RawFrom(";" + input)
      invariant plist == Fields(done)
      decreases |s|
    {
      ghost var before := s;
      s := s[1..];
      var end := FindFrom(s, ';', 0);
      while end > 0 && QuoteOpen(s, end)
        invariant end == -1 || (0 <= end < |s| && s[end] == ';')
        invariant SkipQuoted(s, end) == SkipQuoted(s, FindFrom(s, ';', 0))
        decreases if end < 0 then 0 else |s| - end + 1
      {
        end := FindFrom(s, ';', end + 1);
      }
      ghost var stop := end;
      if end < 0 {
        end := |s|;
      }
      assert end == FieldEnd(s) by {
        FieldEndReached(s, stop);
      }
      var f := s[..end];
      if '=' in f {
        var i := FindFrom(f, '=', 0);
        f := KeyValue(f, i);
      }
      var entry := Strip(f);
      assert plist + [entry] == Fields(done + [s[..end]]) by {
        NormaliseCases(s[..end]);
        FieldsSnoc(done, s[..end]);
      }
      assert done + [s[..end]] + RawFrom(s[end..]) == RawFrom(";" + input) by {
        RawFromStep(before);
        SnocAssoc(done, s[..end], RawFrom(s[end..]));
      }
      done := done + [s[..end]];
      plist := plist + [entry];
      s := s[end..];
    }
    assert done == RawFrom(";" + input);
  }

  // ---------------------------------------------------------------------
  // Properties
  // ---------------------------------------------------------------------

  /** Each outer iteration consumes a `;`, so there are no more fields than `;`s. */
  lemma {:induction false} RawFromBound(s: string)
    ensures |RawFrom(s)| <= CountChar(s, ';')
    decreases |s|
  {
    if s != [] && s[0] == ';' {
      var t := s[1..];
      var end := FieldEnd(t);
      RawFromBound(t[end..]);
      SuffixCount(t, end, ';');
    }
  }

  lemma SuffixCount(t: string, end: nat, c: char)
    requires end <= |t|
    ensures CountChar(t[end..], c) <= CountChar(t, c)
  {
    assert t == t[..end] + t[end..];
    CountCharAppend(t[..end], t[end..], c);
  }

  /** At most one entry more than there are `;`s in the input. */
  lemma ParamListBound(s: string)
    ensures |ParamList(s)| <= CountChar(s, ';') + 1
  {
    RawFromBound(";" + s);
    assert (";" + s)[1..] == s;
  }

  /** Without a `;` the whole input is one field. */
  lemma NoSemicolon(s: string)
    requires ';' !in s
    ensures ParamList(s) == [Element(s)]
  {
    assert (";" + s)[1..] == s;
    assert FindFrom(s, ';', 0) == -1;
    assert s[..|s|] == s && s[|s|..] == [];
    assert RawFrom(";" + s) == [s];
  }

  /** A character missing from `s` is missing from `Strip(s)`, a slice of `s`. */
  lemma StripAbsent(s: string, c: char)
    requires c !in s
    ensures c !in Strip(s)
  {
    var a := |s| - |LStrip(s)|;
    StripSlice(s);
    forall j | 0 <= j < |Strip(s)|
      ensures Strip(s)[j] != c
    {
      assert Strip(s)[j] == s[a + j];
    }
  }

  /** `key=value` with a stripped key and value is already stripped. */
  lemma PairStripped(key: string, value: string)
    requires Stripped(key) && Stripped(value)
    ensures Stripped(key + "=" + value)
  {
    var p := key + "=" + value;
    if key == [] {
      assert p[0] == '=';
    } else {
      assert p[0] == key[0];
    }
    if value == [] {
      assert p[|p| - 1] == '=';
    } else {
      assert p[|p| - 1] == value[|value| - 1];
    }
  }

  /** The first `c` of `a + [c] + b` is the one after `a` when `a` has none. */
  lemma FirstOf(a: string, c: char, b: string)
    requires c !in a
    ensures FindFrom(a + [c] + b, c, 0) == |a|
  {
    assert (a + [c] + b)[|a|] == c;
  }

  /** The rewritten pair is already stripped, and its first `=` follows the key. */
  lemma KeyValueStripped(f: string, i: nat)
    requires i < |f| && '=' !in f[..i]
    ensures Strip(KeyValue(f, i)) == KeyValue(f, i)
    ensures FindFrom(KeyValue(f, i), '=', 0) == |Strip(f[..i])|
  {
    var key := Lower(Strip(f[..i]));
    var value := Strip(f[i + 1..]);
    LowerKeepsStripped(Strip(f[..i]));
    PairStripped(key, value);
    StripStripped(key + "=" + value);
    StripAbsent(f[..i], '=');
    assert '=' !in key;
    FirstOf(key, '=', value);
  }

  /**
   * A field holding `=` becomes its key, stripped and lowercased, then `=`,
   * then its value stripped; and splitting the result at its first `=`
   * gives back exactly that key.
   */
  lemma KeyValueField(f: string)
    requires '=' in f
    ensures var i := FindFrom(f, '=', 0);
      && 0 <= i < |f|
      && Element(f) == Lower(Strip(f[..i])) + "=" + Strip(f[i + 1..])
      && FindFrom(Element(f), '=', 0) == |Strip(f[..i])|
  {
    NormaliseCases(f);
    var i := FindFrom(f, '=', 0);
    assert '=' !in f[..i];
    KeyValueStripped(f, i);
  }

  /** Python's `s.split(';')`: the pieces between the `;`s, empty ones kept. */
  function Split(s: string): (r: seq<string>)
    ensures |r| >= 1
    ensures forall i :: 0 <= i < |r| ==> ';' !in r[i]
    decreases |s|
  {
    var k := FindFrom(s, ';', 0);
    if k < 0 then [s] else [s[..k]] + Split(s[k + 1..])
  }

  lemma {:induction false} CountAbsent(s: string, c: char)
    requires c !in s
    ensures CountChar(s, c) == 0
    decreases |s|
  {
    if s != [] {
      assert s[1..] == s[1..];
      assert forall j :: 0 <= j < |s[1..]| ==> s[1..][j] == s[j + 1];
      CountAbsent(s[1..], c);
    }
  }

  /** Without quotes nothing is ever quoted. */
  lemma NoQuotesClosed(t: string, j: nat)
    requires '"' !in t && j <= |t|
    ensures !QuoteOpen(t, j)
  {
    assert '"' !in t[..j];
    CountAbsent(t[..j], '"');
  }

  /** Without quotes a field ends at the first `;`, or at the end of the text. */
  lemma QuoteFreeFieldEnd(t: string)
    requires '"' !in t
    ensures FieldEnd(t) == (if FindFrom(t, ';', 0) == -1 then |t| else FindFrom(t, ';', 0))
  {
    var e := FieldEnd(t);
    var k := FindFrom(t, ';', 0);
    FieldEndSpec(t);
    if k == -1 {
      assert e == |t|;
    } else if k < e {
      if k > 0 {
        NoQuotesClosed(t, k);
      }
    }
  }

  /** With no quotes in the text, the fields are exactly the `;`-pieces. */
  lemma {:induction false} QuoteFreeFrom(u: string)
    requires '"' !in u
    ensures RawFrom(";" + u) == Split(u)
    decreases |u|
  {
    assert (";" + u)[1..] == u;
    RawFromStep(";" + u);
    QuoteFreeFieldEnd(u);
    var k := FindFrom(u, ';', 0);
    if k >= 0 {
      assert u[k..] == ";" + u[k + 1..];
      QuoteFreeFrom(u[k + 1..]);
    } else {
      assert u[..|u|] == u && u[|u|..] == [];
    }
  }

  /** For quote-free input, `parseparam` splits on `;` and normalises each piece. */
  lemma QuoteFree(s: string)
    requires '"' !in s
    ensures ParamList(s) == Fields(Split(s))
  {
    QuoteFreeFrom(s);
  }

  /** A stripped, lowercase `key=value` field is kept as it is. */
  lemma PairKept(key: string, value: string)
    requires '=' !in key && Stripped(key) && Stripped(value) && Lower(key) == key
    ensures Element(key + "=" + value) == key + "=" + value
  {
    var f := key + "=" + value;
    FirstOf(key, '=', value);
    assert f[..|key|] == key && f[|key| + 1..] == value;
    assert '=' in f by {
      assert f[|key|] == '=';
    }
    KeyValueField(f);
    StripStripped(key);
    StripStripped(value);
  }

  /**
   * Two lowercase, stripped `key=value` pairs without quotes or `;`, joined
   * by `;`, come back as exactly those two entries; `parseparam('a=1;b=2')`
   * giving `['a=1', 'b=2']` is one instance.
   */
  lemma TwoPairs(k1: string, v1: string, k2: string, v2: string)
    requires '=' !in k1 && '=' !in k2
    requires ';' !in k1 && ';' !in v1 && ';' !in k2 && ';' !in v2
    requires '"' !in k1 && '"' !in v1 && '"' !in k2 && '"' !in v2
    requires Stripped(k1) && Stripped(v1) && Stripped(k2) && Stripped(v2)
    requires Lower(k1) == k1 && Lower(k2) == k2
    ensures ParamList((k1 + "=" + v1) + ";" + (k2 + "=" + v2)) == [k1 + "=" + v1, k2 + "=" + v2]
  {
    PairKept(k1, v1);
    PairKept(k2, v2);
    TwoFields(k1 + "=" + v1, k2 + "=" + v2);
  }

  /** Two quote-free pieces that the rewriting keeps come back as they are. */
  lemma TwoFields(p1: string, p2: string)
    requires ';' !in p1 && ';' !in p2 && '"' !in p1 && '"' !in p2
    requires Element(p1) == p1 && Element(p2) == p2
    ensures ParamList(p1 + ";" + p2) == [p1, p2]
  {
    assert '"' !in p1 + ";" + p2;
    QuoteFree(p1 + ";" + p2);
    SplitTwo(p1, p2);
    FieldsTwo(p1, p2);
  }

  lemma SplitTwo(p1: string, p2: string)
    requires ';' !in p1 && ';' !in p2
    ensures Split(p1 + ";" + p2) == [p1, p2]
  {
    var s := p1 + ";" + p2;
    FirstOf(p1, ';', p2);
    assert s[..|p1|] == p1 && s[|p1| + 1..] == p2;
    assert Split(p2) == [p2];
  }

  lemma FieldsTwo(p1: string, p2: string)
    requires Element(p1) == p1 && Element(p2) == p2
    ensures Fields([p1, p2]) == [p1, p2]
  {
    FieldsSnoc([], p1);
    FieldsSnoc([p1], p2);
    Pair(p1, p2);
  }
}
