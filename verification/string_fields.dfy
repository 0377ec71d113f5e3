/**
 This module models Go's `strings.Fields`: a string is cut into the maximal
 runs of characters that are not white space, and the white space between
 them is dropped.

 Go's `strings.Fields` classifies characters with `unicode.IsSpace`, which is
 the Unicode White_Space property (for Latin-1 it is the ASCII set plus NEL
 and NO-BREAK SPACE). `IsSpace` below writes that table out.
 */
module StringFields {

  /** Go's `unicode.IsSpace`: '\t', '\n', '\v', '\f', '\r', ' ', U+0085,
      U+00A0, U+1680, U+2000..U+200A, U+2028, U+2029, U+202F, U+205F, U+3000. */
  predicate IsSpace(c: char) {
    var n := c as int;
    || (0x09 <= n <= 0x0D)
    || n == 0x20
    || n == 0x85
    || n == 0xA0
    || n == 0x1680
    || (0x2000 <= n <= 0x200A)
    || n == 0x2028
    || n == 0x2029
    || n == 0x202F
    || n == 0x205F
    || n == 0x3000
  }

  /** The Latin-1 fast path of `unicode.IsSpace` agrees with the table: below
      U+0100 exactly '\t', '\n', '\v', '\f', '\r', ' ', U+0085 and U+00A0
      are white space, and nothing above U+3000 is. */
  lemma IsSpaceCases(c: char)
    ensures c as int <= 0xFF ==>
      (IsSpace(c) <==>
        c == '\t' || c == '\n' || c == '\U{0B}' || c == '\U{0C}' || c == '\r' || c == ' '
        || c == '\U{85}' || c == '\U{A0}')
    ensures c as int > 0x3000 ==> !IsSpace(c)
  {
  }

  /** Every character of `s` is white space (the empty string included). */
  predicate AllSpace(s: string) {
    forall i :: 0 <= i < |s| ==> IsSpace(s[i])
  }

  /** No character of `s` is white space. */
  predicate NoSpace(s: string) {
    forall i :: 0 <= i < |s| ==> !IsSpace(s[i])
  }

  /** A field as `strings.Fields` produces it: non-empty, without white space. */
  predicate IsToken(s: string) {
    |s| > 0 && NoSpace(s)
  }

  /** The length of the leading run of non-space characters of `s`. */
  function Span(s: string): (k: nat)
    ensures k <= |s|
    ensures NoSpace(s[..k])
    ensures k < |s| ==> IsSpace(s[k])
    ensures |s| > 0 && !IsSpace(s[0]) ==> k > 0
  {
    if |s| == 0 || IsSpace(s[0]) then 0 else 1 + Span(s[1..])
  }

  /** Cutting a string at `k` and joining the halves gives it back. */
  lemma SplitAt(s: string, k: nat)
    requires k <= |s|
    ensures s[..k] + s[k..] == s
  {
  }

  /** `strings.Fields(s)`: the maximal non-space runs of `s`, in order. */
  function Fields(s: string): (r: seq<string>)
    ensures forall i :: 0 <= i < |r| ==> IsToken(r[i])
    decreases |s|
  {
    if |s| == 0 then []
    else if IsSpace(s[0]) then Fields(s[1..])
    else
      var k := Span(s);
      [s[..k]] + Fields(s[k..])
  }

  /** `s` with every white-space character deleted. */
  function RemoveSpace(s: string): (r: string)
    ensures NoSpace(r)
    ensures |r| <= |s|
  {
    if |s| == 0 then []
    else (if IsSpace(s[0]) then [] else [s[0]]) + RemoveSpace(s[1..])
  }

  /** The fields written one after another, with nothing between them. */
  function Concat(ts: seq<string>): string {
    if |ts| == 0 then [] else ts[0] + Concat(ts[1..])
  }

  /** The text that places `gaps[i]` before `tokens[i]` and the last gap
      after the last token. */
  function Layout(tokens: seq<string>, gaps: seq<string>): string
    requires |gaps| == |tokens| + 1
  {
    if |tokens| == 0 then gaps[0]
    else gaps[0] + tokens[0] + Layout(tokens[1..], gaps[1..])
  }

  /** A layout whose tokens are fields and whose gaps are white space, with a
      non-empty gap between any two neighbouring tokens. */
  predicate ValidLayout(tokens: seq<string>, gaps: seq<string>) {
    && |gaps| == |tokens| + 1
    && (forall i :: 0 <= i < |tokens| ==> IsToken(tokens[i]))
    && (forall j :: 0 <= j < |gaps| ==> AllSpace(gaps[j]))
    && (forall j :: 0 < j < |tokens| ==> |gaps[j]| > 0)
  }

  /** The white space around the fields of `s`: the gap before each field
      and the one after the last. `GapsRebuild` shows `s` is the layout of
      its fields with these gaps. */
  function Gaps(s: string): (r: seq<string>)
    ensures |r| > 0
    decreases |s|
  {
    if |s| == 0 then [[]]
    else if IsSpace(s[0]) then
      var g := Gaps(s[1..]);
      [[s[0]] + g[0]] + g[1..]
    else
      [[]] + Gaps(s[Span(s)..])
  }

  /** `s` is the layout of its own fields with the gaps `Gaps(s)`. */
  predicate Rebuilds(s: string) {
    && ValidLayout(Fields(s), Gaps(s))
    && Layout(Fields(s), Gaps(s)) == s
    && (|s| > 0 && IsSpace(s[0]) ==> |Gaps(s)[0]| > 0)
  }

  /** Every text is the layout of its own fields and gaps, so `Fields` loses
      nothing but the exact white space. */
  lemma {:induction false} GapsRebuild(s: string)
    ensures ValidLayout(Fields(s), Gaps(s))
    ensures Layout(Fields(s), Gaps(s)) == s
    decreases |s|
  {
    GapsRebuildRec(s);
  }

  lemma {:induction false} GapsRebuildRec(s: string)
    ensures Rebuilds(s)
    decreases |s|
  {
    if |s| == 0 {
    } else if IsSpace(s[0]) {
      GapsRebuildRec(s[1..]);
      RebuildsAfterSpace(s);
    } else {
      GapsRebuildRec(s[Span(s)..]);
      RebuildsAfterField(s);
    }
  }

  lemma RebuildsAfterSpace(s: string)
    requires |s| > 0 && IsSpace(s[0])
    requires Rebuilds(s[1..])
    ensures Rebuilds(s)
  {
    var f := Fields(s[1..]);
    var g := Gaps(s[1..]);
    var r := [[s[0]] + g[0]] + g[1..];
    SplitAt(s, 1);
    assert s[..1] == [s[0]];
    UnfoldAtSpace(s);
    ValidLayoutAfterSpace(s[0], f, g);
    LayoutPrependToFirstGap(f, g, [s[0]]);
    RebuildsIntro(s, f, r);
  }

  lemma UnfoldAtSpace(s: string)
    requires |s| > 0 && IsSpace(s[0])
    ensures Fields(s) == Fields(s[1..])
    ensures Gaps(s) == [[s[0]] + Gaps(s[1..])[0]] + Gaps(s[1..])[1..]
  {
  }

  lemma ValidLayoutAfterSpace(c: char, f: seq<string>, g: seq<string>)
    requires IsSpace(c)
    requires ValidLayout(f, g)
    ensures ValidLayout(f, [[c] + g[0]] + g[1..])
  {
    var r := [[c] + g[0]] + g[1..];
    assert AllSpace(r[0]) by {
      assert AllSpace(g[0]);
    }
    forall j | 0 < j < |r|
      ensures r[j] == g[j]
    {
    }
  }

  lemma RebuildsAfterField(s: string)
    requires |s| > 0 && !IsSpace(s[0])
    requires Rebuilds(s[Span(s)..])
    ensures Rebuilds(s)
  {
    var k := Span(s);
    var t, rest := s[..k], s[k..];
    SplitAt(s, k);
    UnfoldFieldsAtField(s);
    UnfoldGapsAtField(s);
    RebuildsAfterToken(t, rest);
    RebuildsIntro(s, [t] + Fields(rest), [[]] + Gaps(rest));
  }

  lemma RebuildsIntro(s: string, f: seq<string>, g: seq<string>)
    requires f == Fields(s) && g == Gaps(s)
    requires ValidLayout(f, g) && Layout(f, g) == s
    requires |s| > 0 && IsSpace(s[0]) ==> |g[0]| > 0
    ensures Rebuilds(s)
  {
  }

  lemma UnfoldFieldsAtField(s: string)
    requires |s| > 0 && !IsSpace(s[0])
    ensures Fields(s) == [s[..Span(s)]] + Fields(s[Span(s)..])
  {
  }

  lemma UnfoldGapsAtField(s: string)
    requires |s| > 0 && !IsSpace(s[0])
    ensures Gaps(s) == [[]] + Gaps(s[Span(s)..])
  {
  }

  lemma RebuildsAfterToken(t: string, rest: string)
    requires IsToken(t)
    requires |rest| > 0 ==> IsSpace(rest[0])
    requires Rebuilds(rest)
    ensures ValidLayout([t] + Fields(rest), [[]] + Gaps(rest))
    ensures Layout([t] + Fields(rest), [[]] + Gaps(rest)) == t + rest
  {
    var f := Fields(rest);
    var g := Gaps(rest);
    LayoutAfterField(t, f, g);
    ValidLayoutAfterField(t, f, g, rest);
  }

  lemma LayoutAfterField(t: string, f: seq<string>, g: seq<string>)
    requires |g| == |f| + 1
    ensures Layout([t] + f, [[]] + g) == t + Layout(f, g)
  {
    var tokens := [t] + f;
    var r := [[]] + g;
    assert tokens[1..] == f && r[1..] == g;
    assert [] + t == t;
  }

  lemma ValidLayoutAfterField(t: string, f: seq<string>, g: seq<string>, rest: string)
    requires IsToken(t)
    requires ValidLayout(f, g)
    requires f == Fields(rest)
    requires |rest| > 0 ==> IsSpace(rest[0]) && |g[0]| > 0
    ensures ValidLayout([t] + f, [[]] + g)
  {
    var tokens := [t] + f;
    var r := [[]] + g;
    forall j | 0 <= j < |tokens|
      ensures IsToken(tokens[j])
    {
      if j > 0 {
        assert tokens[j] == f[j - 1];
      }
    }
    forall j | 0 <= j < |r|
      ensures AllSpace(r[j])
    {
      if j > 0 {
        assert r[j] == g[j - 1];
      }
    }
    forall j | 0 < j < |tokens|
      ensures |r[j]| > 0
    {
      assert r[j] == g[j - 1];
      if j == 1 {
        assert |f| > 0;
        assert |rest| > 0;
      }
    }
  }

  /** Putting text in front of the first gap puts it in front of the layout. */
  lemma LayoutPrependToFirstGap(tokens: seq<string>, gaps: seq<string>, x: string)
    requires |gaps| == |tokens| + 1
    ensures Layout(tokens, [x + gaps[0]] + gaps[1..]) == x + Layout(tokens, gaps)
  {
    var gaps' := [x + gaps[0]] + gaps[1..];
    assert gaps'[1..] == gaps[1..];
  }

  lemma {:induction false} RemoveSpaceAppend(a: string, b: string)
    ensures RemoveSpace(a + b) == RemoveSpace(a) + RemoveSpace(b)
    decreases |a|
  {
    if |a| == 0 {
      assert a + b == b;
    } else {
      var head := if IsSpace(a[0]) then [] else [a[0]];
      var ab := a + b;
      assert ab[0] == a[0];
      assert ab[1..] == a[1..] + b;
      RemoveSpaceAppend(a[1..], b);
      calc {
        RemoveSpace(ab);
        head + RemoveSpace(a[1..] + b);
        head + (RemoveSpace(a[1..]) + RemoveSpace(b));
        { JoinAssoc(head, RemoveSpace(a[1..]), RemoveSpace(b)); }
        (head + RemoveSpace(a[1..])) + RemoveSpace(b);
      }
    }
  }

  /** Joining strings does not depend on how the joins are grouped. */
  lemma JoinAssoc(x: string, y: string, z: string)
    ensures x + (y + z) == (x + y) + z
  {
  }

  lemma {:induction false} RemoveSpaceOfNoSpace(t: string)
    requires NoSpace(t)
    ensures RemoveSpace(t) == t
    decreases |t|
  {
    if |t| > 0 {
      RemoveSpaceOfNoSpace(t[1..]);
      assert t == [t[0]] + t[1..];
    }
  }

  /** Joining the fields back together gives the input with its white space
      removed: no character other than white space is lost, duplicated or
      reordered. */
  lemma {:induction false} FieldsConcat(s: string)
    ensures Concat(Fields(s)) == RemoveSpace(s)
    decreases |s|
  {
    if |s| == 0 {
    } else if IsSpace(s[0]) {
      FieldsConcat(s[1..]);
    } else {
      var k := Span(s);
      SplitAt(s, k);
      FieldsConcat(s[k..]);
      RemoveSpaceAppend(s[..k], s[k..]);
      RemoveSpaceOfNoSpace(s[..k]);
      var f := [s[..k]] + Fields(s[k..]);
      assert f[1..] == Fields(s[k..]);
    }
  }

  /** A field followed by white space (or by nothing) is read as that field. */
  lemma FieldsOfTokenThen(t: string, u: string)
    requires IsToken(t)
    requires |u| == 0 || IsSpace(u[0])
    ensures Fields(t + u) == [t] + Fields(u)
  {
    var s := t + u;
    assert s[..|t|] == t;
    assert s[|t|..] == u;
    assert Span(s) == |t|;
  }

  /** Leading white space does not change the fields. */
  lemma {:induction false} FieldsOfBlankPrefix(w: string, s: string)
    requires AllSpace(w)
    ensures Fields(w + s) == Fields(s)
    decreases |w|
  {
    if |w| == 0 {
      assert w + s == s;
    } else {
      assert (w + s)[1..] == w[1..] + s;
      FieldsOfBlankPrefix(w[1..], s);
    }
  }

  /** A string has no fields exactly when it is empty or all white space. */
  lemma {:induction false} FieldsEmptyIffBlank(s: string)
    ensures Fields(s) == [] <==> AllSpace(s)
    decreases |s|
  {
    if |s| > 0 && IsSpace(s[0]) {
      FieldsEmptyIffBlank(s[1..]);
      assert AllSpace(s) <==> AllSpace(s[1..]);
    }
  }

  /** A white-space character splits the fields: those before it and those
      after it, never one field spanning both sides. */
  lemma {:induction false} FieldsSplitAtSpace(a: string, c: char, b: string)
    requires IsSpace(c)
    ensures Fields(a + [c] + b) == Fields(a) + Fields(b)
    decreases |a|
  {
    var s := a + [c] + b;
    if |a| == 0 {
      assert s[1..] == b;
    } else if IsSpace(a[0]) {
      assert s[1..] == a[1..] + [c] + b;
      FieldsSplitAtSpace(a[1..], c, b);
    } else {
      var k := Span(a);
      FieldsSplitAtSpace(a[k..], c, b);
      FieldsAfterFirstField(a, c, b);
    }
  }

  /** The first field of `a + [c] + b` is the first field of `a`. */
  lemma FieldsAfterFirstField(a: string, c: char, b: string)
    requires IsSpace(c)
    requires |a| > 0 && !IsSpace(a[0])
    ensures Fields(a + [c] + b) == [a[..Span(a)]] + Fields(a[Span(a)..] + [c] + b)
    ensures Fields(a) == [a[..Span(a)]] + Fields(a[Span(a)..])
  {
    var k := Span(a);
    var rest := a[k..] + [c] + b;
    assert a + [c] + b == a[..k] + rest;
    FieldsOfTokenThen(a[..k], rest);
  }

  /** A non-empty run of white space splits the fields the same way. */
  lemma FieldsSplitAtRun(a: string, w: string, b: string)
    requires |w| > 0 && AllSpace(w)
    ensures Fields(a + w + b) == Fields(a) + Fields(b)
  {
    assert a + w + b == a + [w[0]] + (w[1..] + b);
    FieldsSplitAtSpace(a, w[0], w[1..] + b);
    FieldsOfBlankPrefix(w[1..], b);
  }

  /** Widening, narrowing or changing a run of white space between two parts
      of a text does not change its fields. */
  lemma FieldsWidenRun(a: string, w: string, w': string, b: string)
    requires |w| > 0 && AllSpace(w)
    requires |w'| > 0 && AllSpace(w')
    ensures Fields(a + w + b) == Fields(a + w' + b)
  {
    FieldsSplitAtRun(a, w, b);
    FieldsSplitAtRun(a, w', b);
  }

  /** Leading and trailing white space does not change the fields. */
  lemma FieldsOfPadded(w1: string, s: string, w2: string)
    requires AllSpace(w1) && AllSpace(w2)
    ensures Fields(w1 + s + w2) == Fields(s)
  {
    if |w2| == 0 {
      assert w1 + s + w2 == w1 + s;
    } else {
      FieldsSplitAtRun(w1 + s, w2, []);
      assert w1 + s + w2 + [] == w1 + s + w2;
    }
    FieldsOfBlankPrefix(w1, s);
  }

  /** Laying fields out with white-space gaps and splitting the text again
      gives back exactly those fields. */
  lemma {:induction false} FieldsOfLayout(tokens: seq<string>, gaps: seq<string>)
    requires ValidLayout(tokens, gaps)
    ensures Fields(Layout(tokens, gaps)) == tokens
    decreases |tokens|
  {
    if |tokens| == 0 {
      FieldsEmptyIffBlank(gaps[0]);
    } else {
      var rest := Layout(tokens[1..], gaps[1..]);
      assert ValidLayout(tokens[1..], gaps[1..]);
      FieldsOfLayout(tokens[1..], gaps[1..]);
      if |tokens| == 1 {
        assert AllSpace(gaps[1]);
      } else {
        assert rest == gaps[1] + tokens[1] + Layout(tokens[2..], gaps[2..]);
        assert rest[0] == gaps[1][0];
      }
      FieldsOfTokenThen(tokens[0], rest);
      assert gaps[0] + tokens[0] + rest == gaps[0] + (tokens[0] + rest);
      FieldsOfBlankPrefix(gaps[0], tokens[0] + rest);
      assert [tokens[0]] + tokens[1..] == tokens;
    }
  }

  /** Cutting `s[start..]` at the white-space character `s[i]`: the field
      `s[start..i]` (if any) comes first, then the fields after `s[i]`. */
  lemma FieldsFromSpace(s: string, start: nat, i: nat)
    requires start <= i < |s|
    requires forall k :: start <= k < i ==> !IsSpace(s[k])
    requires IsSpace(s[i])
    ensures start < i ==> Fields(s[start..]) == [s[start..i]] + Fields(s[i + 1..])
    ensures start == i ==> Fields(s[start..]) == Fields(s[i + 1..])
  {
    var field := s[start..i];
    assert s[start..] == field + s[i..];
    assert s[i..] == [s[i]] + s[i + 1..];
    assert NoSpace(field) by {
      forall j | 0 <= j < |field|
        ensures !IsSpace(field[j])
      {
        assert field[j] == s[start + j];
      }
    }
    FieldsOfSpaceThen(s[i], s[i + 1..]);
    if start < i {
      FieldsOfTokenThen(field, s[i..]);
    }
  }

  /** A leading white-space character is dropped. */
  lemma FieldsOfSpaceThen(c: char, u: string)
    requires IsSpace(c)
    ensures Fields([c] + u) == Fields(u)
  {
    assert ([c] + u)[1..] == u;
  }

  /** The last field runs to the end of the input. */
  lemma FieldsOfTail(s: string, start: nat)
    requires start <= |s|
    requires forall k :: start <= k < |s| ==> !IsSpace(s[k])
    ensures Fields(s[start..]) == if start < |s| then [s[start..]] else []
  {
    assert NoSpace(s[start..]) by {
      forall j | 0 <= j < |s| - start
        ensures !IsSpace(s[start..][j])
      {
        assert s[start..][j] == s[start + j];
      }
    }
    if start < |s| {
      assert s[start..] == s[start..] + [];
      FieldsOfTokenThen(s[start..], []);
    }
  }

  /**
   The state of the loop below after it has looked at `s[..i]`: the field
   that is still open starts at `start` and holds no white space, and the
   fields closed so far followed by the fields of `s[start..]` are the
   fields of `s`.
   */
  predicate Scanned(s: string, start: nat, i: nat, fields: seq<string>) {
    && start <= i <= |s|
    && (forall k :: start <= k < i ==> !IsSpace(s[k]))
    && Fields(s) == fields + Fields(s[start..])
  }

  /** Before the loop nothing has been closed. */
  lemma ScanBegin(s: string)
    ensures Scanned(s, 0, 0, [])
  {
    assert s[0..] == s;
  }

  /** A character that is not white space extends the open field. */
  lemma ScanToken(s: string, start: nat, i: nat, fields: seq<string>)
    requires Scanned(s, start, i, fields)
    requires i < |s| && !IsSpace(s[i])
    ensures Scanned(s, start, i + 1, fields)
  {
  }

  /** A white-space character closes the open field, if it is not empty. */
  lemma ScanSpace(s: string, start: nat, i: nat, fields: seq<string>)
    requires Scanned(s, start, i, fields)
    requires i < |s| && IsSpace(s[i])
    ensures start < i ==> Scanned(s, i + 1, i + 1, fields + [s[start..i]])
    ensures start == i ==> Scanned(s, i + 1, i + 1, fields)
  {
    FieldsFromSpace(s, start, i);
    if start < i {
      var field, after := s[start..i], Fields(s[i + 1..]);
      assert fields + ([field] + after) == (fields + [field]) + after;
    }
  }

  /** At the end of the input the open field, if any, is the last one. */
  lemma ScanEnd(s: string, start: nat, fields: seq<string>)
    requires Scanned(s, start, |s|, fields)
    ensures start < |s| ==> Fields(s) == fields + [s[start..]]
    ensures start == |s| ==> Fields(s) == fields
  {
    FieldsOfTail(s, start);
    if start == |s| {
      assert fields + [] == fields;
    }
  }

  /** One turn of the loop below: look at `s[i]`, closing the open field
      when it is white space. */
  method ScanStep(s: string, start: nat, i: nat, fields: seq<string>)
    returns (start': nat, fields': seq<string>)
    requires Scanned(s, start, i, fields)
    requires i < |s|
    ensures Scanned(s, start', i + 1, fields')
  {
    if IsSpace(s[i]) {
      ScanSpace(s, start, i, fields);
      fields' := if start < i then fields + [s[start..i]] else fields;
      start' := i + 1;
    } else {
      ScanToken(s, start, i, fields);
      start', fields' := start, fields;
    }
  }

  /**
   The loop of Go's `strings.FieldsFunc`: remember where the current field
   started, close it at the next white-space character, and close the last
   one at the end of the input.
   */
  method SplitFields(s: string) returns (fields: seq<string>)
    ensures fields == Fields(s)
  {
    fields := [];
    var start: nat := 0;
    ScanBegin(s);
    for i := 0 to |s|
      invariant Scanned(s, start, i, fields)
    {
      start, fields := ScanStep(s, start, i, fields);
    }
    ScanEnd(s, start, fields);
    if start < |s| {
      fields := fields + [s[start..]];
    }
  }
}
