/**
  Node paths as strings: escaping, the two separators, and the range queries the encoding is for.
  A name is a sequence of code points; their order is the byte order of their UTF-8 form
  (section 1 of RFC 3629).
 */
module PathEncoder {
  import opened Wrappers

  const NAME_SEPARATOR := '$'
  const COLLECTION_SEPARATOR := '#'
  const ESCAPE := '\\'
  const RUNE_ERROR := '\U{FFFD}'

  predicate ValidName(n: string) {
    n != "" && RUNE_ERROR !in n
  }

  predicate Encodable(path: seq<string>) {
    forall n :: n in path ==> ValidName(n)
  }

  predicate NeedsEscape(c: char) {
    c == ESCAPE || c == NAME_SEPARATOR || c <= COLLECTION_SEPARATOR
  }

  function Escape(n: string): string {
    if n == "" then ""
    else (if NeedsEscape(n[0]) then [ESCAPE, n[0]] else [n[0]]) + Escape(n[1..])
  }

  function Join(path: seq<string>): string {
    if path == [] then ""
    else if |path| == 1 then Escape(path[0])
    else Escape(path[0]) + [NAME_SEPARATOR] + Join(path[1..])
  }

  /** A direct child of a collection gets the other separator before its name. */
  function Encoding(path: seq<string>, inCollection: bool): string {
    var n := |path| - 1;
    if inCollection && n > 0 then Join(path[..n]) + [COLLECTION_SEPARATOR] + Escape(path[n]) else Join(path)
  }

  method Encode(path: seq<string>, inCollection: bool) returns (r: Result<string>)
    ensures r.Success? <==> Encodable(path)
    ensures r.Success? ==> r.value == Encoding(path, inCollection)
  {
    if path == [] {
      return Success("");
    }
    hide Written, Escape, Encoding, ValidName, SeparatorBefore, Encodable;
    var b := "";
    var lastIdx := |path| - 1;
    EncodeEnds(path, inCollection);
    for i := 0 to |path|
      invariant Encodable(path[..i]) && b == Written(path, i, inCollection)
    {
      EncodeStep(path, i, inCollection);
      var written := WriteName(b + SeparatorBefore(i, lastIdx, inCollection), path[i]);
      if written.Failure? {
        return written;
      }
      b := written.value;
    }
    r := Success(b);
  }

  /** What has been written when the loop comes to name `i`. */
  function Written(path: seq<string>, i: nat, inCollection: bool): string
    requires i <= |path|
  {
    if i == |path| then Encoding(path, inCollection) else Join(path[..i])
  }

  lemma EncodeEnds(path: seq<string>, inCollection: bool)
    requires path != []
    ensures Encodable(path[..0]) && Written(path, 0, inCollection) == ""
    ensures Written(path, |path|, inCollection) == Encoding(path, inCollection)
    ensures path[..|path|] == path
  {
  }

  function SeparatorBefore(i: int, lastIdx: int, inCollection: bool): string {
    if i <= 0 then ""
    else if i == lastIdx && inCollection then [COLLECTION_SEPARATOR]
    else [NAME_SEPARATOR]
  }

  /** Writing the separator and one more name. */
  lemma EncodeStep(path: seq<string>, i: nat, inCollection: bool)
    requires i < |path|
    ensures Written(path, i, inCollection) + SeparatorBefore(i, |path| - 1, inCollection) + Escape(path[i])
      == Written(path, i + 1, inCollection)
    ensures Encodable(path[..i]) && ValidName(path[i]) ==> Encodable(path[..i + 1])
    ensures !ValidName(path[i]) ==> !Encodable(path)
  {
    hide Escape, ValidName;
    assert path[..i + 1] == path[..i] + [path[i]];
    assert i == |path| - 1 ==> path[..i + 1] == path;
    JoinSnoc(path[..i], path[i]);
    if i == 0 {
      assert "" + "" + Escape(path[0]) == Escape(path[0]);
    }
  }

  method WriteName(before: string, name: string) returns (r: Result<string>)
    ensures r.Success? <==> ValidName(name)
    ensures r.Success? ==> r.value == before + Escape(name)
  {
    if name == "" {
      return Failure("path contains empty node name");
    }
    var b := before;
    assert name[0..] == name;
    for j := 0 to |name|
      invariant b + Escape(name[j..]) == before + Escape(name)
      invariant RUNE_ERROR !in name[..j]
    {
      if name[j] == RUNE_ERROR {
        return Failure("node name contains invalid UTF-8 code point");
      }
      assert name[j..][1..] == name[j + 1..];
      if NeedsEscape(name[j]) {
        b := b + [ESCAPE];
      }
      b := b + [name[j]];
    }
    assert name[|name|..] == "" && name[..|name|] == name;
    r := Success(b);
  }

  lemma {:induction false} JoinSnoc(path: seq<string>, n: string)
    ensures Join(path + [n]) == if path == [] then Escape(n) else Join(path) + [NAME_SEPARATOR] + Escape(n)
  {
    if path == [] {
    } else {
      assert (path + [n])[1..] == path[1..] + [n];
      JoinSnoc(path[1..], n);
    }
  }

  // ------------------------------------------------------------ decoding

  predicate IsSeparator(c: char) {
    c == NAME_SEPARATOR || c == COLLECTION_SEPARATOR
  }

  /** Names read from the rest of an encoding, given the name begun and whether an escape is pending. */
  function DecodeFrom(s: string, name: string, escaped: bool): Option<seq<string>> {
    if s == "" then (if escaped then None else Some([name]))
    else if s[0] == RUNE_ERROR then None
    else if escaped then DecodeFrom(s[1..], name + [s[0]], false)
    else if s[0] == ESCAPE then DecodeFrom(s[1..], name, true)
    else if IsSeparator(s[0]) then Prepend([name], DecodeFrom(s[1..], "", false))
    else DecodeFrom(s[1..], name + [s[0]], false)
  }

  function Prepend(names: seq<string>, rest: Option<seq<string>>): Option<seq<string>> {
    match rest
    case None => None
    case Some(r) => Some(names + r)
  }

  lemma PrependNothing(rest: Option<seq<string>>)
    ensures Prepend([], rest) == rest
  {
    if rest.Some? {
      assert [] + rest.value == rest.value;
    }
  }

  lemma PrependTwice(a: seq<string>, b: seq<string>, rest: Option<seq<string>>)
    ensures Prepend(a, Prepend(b, rest)) == Prepend(a + b, rest)
  {
    if rest.Some? {
      assert a + (b + rest.value) == a + b + rest.value;
    }
  }

  function Decoding(s: string): Option<seq<string>> {
    if s == "" then Some([]) else DecodeFrom(s, "", false)
  }

  method Decode(encodedPath: string) returns (r: Result<seq<string>>)
    ensures r.Success? <==> Decoding(encodedPath).Some?
    ensures r.Success? ==> r.value == Decoding(encodedPath).value
  {
    if encodedPath == "" {
      return Success([]);
    }
    var path: seq<string>, b, escaped := [], "", false;
    assert encodedPath[0..] == encodedPath;
    PrependNothing(DecodeFrom(encodedPath, "", false));
    for i := 0 to |encodedPath|
      invariant Decoding(encodedPath) == Prepend(path, DecodeFrom(encodedPath[i..], b, escaped))
    {
      var c := encodedPath[i];
      assert encodedPath[i..][1..] == encodedPath[i + 1..];
      if c == RUNE_ERROR {
        return Failure("encodedPath contains invalid UTF-8 code point");
      }
      if escaped {
        b := b + [c];
        escaped := false;
      } else if c == ESCAPE {
        escaped := true;
      } else if IsSeparator(c) {
        PrependTwice(path, [b], DecodeFrom(encodedPath[i + 1..], "", false));
        path := path + [b];
        b := "";
      } else {
        b := b + [c];
      }
    }
    if escaped {
      return Failure("encoded path ends with escape character");
    }
    r := Success(path + [b]);
  }

  lemma DecodeSkips(c: char, rest: string, name: string)
    requires c != RUNE_ERROR
    ensures NeedsEscape(c) ==>
      DecodeFrom([ESCAPE, c] + rest, name, false) == DecodeFrom(rest, name + [c], false)
    ensures !NeedsEscape(c) ==> DecodeFrom([c] + rest, name, false) == DecodeFrom(rest, name + [c], false)
    ensures IsSeparator(c) ==>
      DecodeFrom([c] + rest, name, false) == Prepend([name], DecodeFrom(rest, "", false))
  {
    var s := [ESCAPE, c] + rest;
    assert s[1..] == [c] + rest && ([c] + rest)[1..] == rest;
    assert DecodeFrom(s, name, false) == DecodeFrom([c] + rest, name, true);
  }

  lemma {:induction false} DecodeEscaped(n: string, rest: string, name: string)
    requires RUNE_ERROR !in n
    ensures DecodeFrom(Escape(n) + rest, name, false) == DecodeFrom(rest, name + n, false)
  {
    hide DecodeFrom, NeedsEscape;
    if n == "" {
      assert Escape(n) + rest == rest && name + n == name;
    } else {
      DecodeEscaped(n[1..], rest, name + [n[0]]);
      DecodeSkips(n[0], Escape(n[1..]) + rest, name);
      assert n == [n[0]] + n[1..];
      assert name + [n[0]] + n[1..] == name + n;
      if NeedsEscape(n[0]) {
        assert Escape(n) + rest == [ESCAPE, n[0]] + (Escape(n[1..]) + rest);
      } else {
        assert Escape(n) + rest == [n[0]] + (Escape(n[1..]) + rest);
      }
    }
  }

  /** Up to a separator, an encoding decodes to its own path whatever follows. */
  lemma {:induction false} DecodeJoin(path: seq<string>, c: char, rest: string)
    requires Encodable(path) && path != [] && IsSeparator(c)
    ensures DecodeFrom(Join(path) + ([c] + rest), "", false) == Prepend(path, DecodeFrom(rest, "", false))
  {
    hide DecodeFrom, Escape, Prepend;
    var n := path[0];
    assert n in path && forall m :: m in path[1..] ==> m in path;
    assert "" + n == n;
    if |path| == 1 {
      DecodeEscaped(n, [c] + rest, "");
      DecodeSkips(c, rest, n);
      assert path == [n];
    } else {
      var tail := Join(path[1..]) + ([c] + rest);
      DecodeJoin(path[1..], c, rest);
      JoinSplit(path, [c] + rest);
      DecodeEscaped(n, [NAME_SEPARATOR] + tail, "");
      DecodeSkips(NAME_SEPARATOR, tail, n);
      PrependTwice([n], path[1..], DecodeFrom(rest, "", false));
      assert path == [n] + path[1..];
    }
  }

  lemma JoinDecodes(path: seq<string>)
    requires Encodable(path)
    ensures Decoding(Join(path)) == Some(path)
  {
    if path != [] {
      var n := |path| - 1;
      assert path == path[..n] + [path[n]];
      JoinSnoc(path[..n], path[n]);
      assert path[n] in path && forall m :: m in path[..n] ==> m in path;
      DecodeEscaped(path[n], "", "");
      assert Escape(path[n]) + "" == Escape(path[n]) && "" + path[n] == path[n];
      if n > 0 {
        DecodeJoin(path[..n], NAME_SEPARATOR, Escape(path[n]));
        Pair(Join(path[..n]), [NAME_SEPARATOR], Escape(path[n]));
      }
    }
  }

  /** Decoding undoes encoding, whichever separator was used last, so encodings are injective. */
  lemma RoundTrip(path: seq<string>, inCollection: bool)
    requires Encodable(path)
    ensures Decoding(Encoding(path, inCollection)) == Some(path)
  {
    var n := |path| - 1;
    if inCollection && n > 0 {
      assert path[n] in path && forall m :: m in path[..n] ==> m in path;
      DecodeEscaped(path[n], "", "");
      assert Escape(path[n]) + "" == Escape(path[n]) && "" + path[n] == path[n];
      DecodeJoin(path[..n], COLLECTION_SEPARATOR, Escape(path[n]));
      Pair(Join(path[..n]), [COLLECTION_SEPARATOR], Escape(path[n]));
      assert path == path[..n] + [path[n]];
    } else {
      JoinDecodes(path);
    }
  }

  lemma EncodingIsInjective(p: seq<string>, pIn: bool, q: seq<string>, qIn: bool)
    requires Encodable(p) && Encodable(q) && Encoding(p, pIn) == Encoding(q, qIn)
    ensures p == q
  {
    RoundTrip(p, pIn);
    RoundTrip(q, qIn);
  }

  /** The separator tells the kinds apart, so a path below the top level has two keys. */
  lemma KindShowsInKey(p: seq<string>)
    requires |p| > 1
    ensures Encoding(p, true) != Encoding(p, false)
  {
    var n := |p| - 1;
    JoinSnoc(p[..n], p[n]);
    assert p == p[..n] + [p[n]];
    assert Encoding(p, true)[|Join(p[..n])|] == COLLECTION_SEPARATOR;
    assert Join(p)[|Join(p[..n])|] == NAME_SEPARATOR;
  }

  // -------------------------------------------------------- range queries

  /** Lexicographic order of strings, by code point. */
  predicate Less(a: string, b: string) {
    b != "" && (a == "" || a[0] < b[0] || (a[0] == b[0] && Less(a[1..], b[1..])))
  }

  /** The query `low <= s AND s < high`. */
  predicate InRange(low: string, s: string, high: string) {
    !Less(s, low) && Less(s, high)
  }

  /** Between `s` and `s` followed by `c` lie the strings that go on from `s` with less than `c`. */
  lemma {:induction false} RangeIsPrefix(s: string, x: string, c: char)
    ensures InRange(s, x, s + [c]) <==> s <= x && (|x| > |s| ==> x[|s|] < c)
  {
    if s == "" {
      assert s + [c] == [c];
      if x != "" {
        assert !Less(x[1..], "");
      }
    } else if x != "" {
      RangeIsPrefix(s[1..], x[1..], c);
      assert (s + [c])[1..] == s[1..] + [c];
      assert s <= x <==> s[0] == x[0] && s[1..] <= x[1..];
    }
  }

  /** Read from a state, a string shows no bare code point below the separators. */
  predicate Clean(s: string, escaped: bool) {
    s == "" || (if escaped then Clean(s[1..], false)
                else if s[0] == ESCAPE then Clean(s[1..], true)
                else s[0] >= COLLECTION_SEPARATOR && Clean(s[1..], false))
  }

  lemma CleanSkips(c: char, rest: string)
    ensures NeedsEscape(c) ==> (Clean([ESCAPE, c] + rest, false) <==> Clean(rest, false))
    ensures !NeedsEscape(c) || IsSeparator(c) ==> (Clean([c] + rest, false) <==> Clean(rest, false))
  {
    var s := [ESCAPE, c] + rest;
    assert s[1..] == [c] + rest && ([c] + rest)[1..] == rest;
    assert Clean(s, false) <==> Clean([c] + rest, true);
  }

  /** Escaped text passes the scan by. */
  lemma {:induction false} CleanEscaped(n: string, rest: string)
    ensures Clean(Escape(n) + rest, false) <==> Clean(rest, false)
  {
    hide Clean, NeedsEscape;
    if n == "" {
      assert Escape(n) + rest == rest;
    } else {
      CleanEscaped(n[1..], rest);
      CleanSkips(n[0], Escape(n[1..]) + rest);
      if NeedsEscape(n[0]) {
        assert Escape(n) + rest == [ESCAPE, n[0]] + (Escape(n[1..]) + rest);
      } else {
        assert Escape(n) + rest == [n[0]] + (Escape(n[1..]) + rest);
      }
    }
  }

  lemma JoinSplit(path: seq<string>, rest: string)
    requires |path| > 1
    ensures Join(path) + rest == Escape(path[0]) + ([NAME_SEPARATOR] + (Join(path[1..]) + rest))
  {
    Regroup(Escape(path[0]), [NAME_SEPARATOR], Join(path[1..]), rest);
  }

  lemma Pair(a: string, b: string, c: string)
    ensures a + b + c == a + (b + c)
  {
  }

  lemma Regroup(a: string, b: string, c: string, d: string)
    ensures a + b + c + d == a + (b + (c + d))
  {
  }

  lemma {:induction false} CleanJoin(path: seq<string>, rest: string)
    ensures Clean(Join(path) + rest, false) <==> Clean(rest, false)
  {
    hide Clean, Escape;
    if path == [] {
      assert Join(path) + rest == rest;
    } else if |path| == 1 {
      CleanEscaped(path[0], rest);
    } else {
      var tail := Join(path[1..]) + rest;
      CleanJoin(path[1..], rest);
      CleanSkips(NAME_SEPARATOR, tail);
      CleanEscaped(path[0], [NAME_SEPARATOR] + tail);
      JoinSplit(path, rest);
    }
  }

  lemma EncodingIsClean(path: seq<string>, inCollection: bool)
    ensures Clean(Encoding(path, inCollection), false)
  {
    hide Clean, Escape, Join;
    CleanNothing();
    var n := |path| - 1;
    if inCollection && n > 0 {
      var name := Escape(path[n]);
      CleanJoin(path[..n], [COLLECTION_SEPARATOR] + name);
      CleanSkips(COLLECTION_SEPARATOR, name);
      CleanEscaped(path[n], "");
      assert name + "" == name;
      Pair(Join(path[..n]), [COLLECTION_SEPARATOR], name);
    } else {
      CleanJoin(path, "");
      assert Join(path) + "" == Join(path);
    }
  }

  lemma CleanNothing()
    ensures Clean("", false)
  {
  }

  lemma {:induction false} JoinAppend(p: seq<string>, r: seq<string>)
    requires p != [] && r != []
    ensures Join(p + r) == Join(p) + [NAME_SEPARATOR] + Join(r)
  {
    if |p| == 1 {
      assert (p + r)[1..] == r;
    } else {
      assert (p + r)[1..] == p[1..] + r;
      JoinAppend(p[1..], r);
    }
  }

  /** A descendant's encoding goes on from its ancestor's with a separator. */
  lemma DescendantExtends(p: seq<string>, q: seq<string>, qIn: bool)
    requires p != [] && p <= q && |p| < |q|
    ensures Join(p) <= Encoding(q, qIn) && |Join(p)| < |Encoding(q, qIn)|
    ensures IsSeparator(Encoding(q, qIn)[|Join(p)|])
  {
    hide Join, Escape;
    var n := |q| - 1;
    var r := q[|p|..];
    assert q == p + r;
    JoinAppend(p, r);
    if qIn && |r| > 1 {
      assert q[..n] == p + r[..|r| - 1];
      JoinAppend(p, r[..|r| - 1]);
    } else if qIn {
      assert q[..n] == p;
    }
  }

  /**
    The sub-tree query of a node that is not a collection's direct child returns exactly the
    node and its descendants.
   */
  lemma SubtreeRange(p: seq<string>, q: seq<string>, qIn: bool)
    requires Encodable(p) && Encodable(q) && p != []
    requires q == p ==> Encoding(q, qIn) == Join(p)
    ensures InRange(Join(p), Encoding(q, qIn), Join(p) + ['%']) <==> p <= q
  {
    var x := Encoding(q, qIn);
    RangeIsPrefix(Join(p), x, '%');
    if p <= q && |p| < |q| {
      DescendantExtends(p, q, qIn);
    } else if Join(p) <= x {
      var rest := x[|Join(p)|..];
      assert x == Join(p) + rest;
      RoundTrip(q, qIn);
      if rest == "" {
        assert x == Join(p);
        JoinDecodes(p);
      } else if rest[0] < '%' {
        EncodingIsClean(q, qIn);
        CleanJoin(p, rest);
        assert rest == [rest[0]] + rest[1..];
        DecodeJoin(p, rest[0], rest[1..]);
      }
    }
  }

  /** The position of the first bare collection separator, or of the first bare separator of any kind. */
  function FirstBare(s: string, escaped: bool, any: bool): nat {
    if s == "" then 0
    else if !escaped && (s[0] == COLLECTION_SEPARATOR || (any && s[0] == NAME_SEPARATOR)) then 0
    else 1 + FirstBare(s[1..], !escaped && s[0] == ESCAPE, any)
  }

  lemma FirstBareSkips(c: char, rest: string, any: bool)
    ensures NeedsEscape(c) ==> FirstBare([ESCAPE, c] + rest, false, any) == 2 + FirstBare(rest, false, any)
    ensures !NeedsEscape(c) ==> FirstBare([c] + rest, false, any) == 1 + FirstBare(rest, false, any)
  {
    var s := [ESCAPE, c] + rest;
    assert s[1..] == [c] + rest && ([c] + rest)[1..] == rest;
    assert FirstBare(s, false, any) == 1 + FirstBare([c] + rest, true, any);
    assert FirstBare([c] + rest, true, any) == 1 + FirstBare(rest, false, any);
  }

  lemma {:induction false} FirstBareEscaped(n: string, rest: string, any: bool)
    ensures FirstBare(Escape(n) + rest, false, any) == |Escape(n)| + FirstBare(rest, false, any)
  {
    hide FirstBare, NeedsEscape;
    if n == "" {
      assert Escape(n) + rest == rest;
    } else {
      FirstBareEscaped(n[1..], rest, any);
      FirstBareSkips(n[0], Escape(n[1..]) + rest, any);
      if NeedsEscape(n[0]) {
        assert Escape(n) + rest == [ESCAPE, n[0]] + (Escape(n[1..]) + rest);
      } else {
        assert Escape(n) + rest == [n[0]] + (Escape(n[1..]) + rest);
      }
    }
  }

  lemma FirstBareSeparator(rest: string)
    ensures FirstBare([NAME_SEPARATOR] + rest, false, false) == 1 + FirstBare(rest, false, false)
  {
    assert ([NAME_SEPARATOR] + rest)[1..] == rest;
  }

  lemma {:induction false} FirstBareJoin(path: seq<string>, rest: string)
    ensures FirstBare(Join(path) + rest, false, false) == |Join(path)| + FirstBare(rest, false, false)
  {
    hide FirstBare, Escape;
    if path == [] {
      assert Join(path) + rest == rest;
    } else if |path| == 1 {
      FirstBareEscaped(path[0], rest, false);
    } else {
      var tail := Join(path[1..]) + rest;
      FirstBareJoin(path[1..], rest);
      FirstBareSeparator(tail);
      FirstBareEscaped(path[0], [NAME_SEPARATOR] + tail, false);
      JoinSplit(path, rest);
    }
  }

  /** The collection separator shows up only before the name of a collection's direct child. */
  lemma CollectionPrefix(c: seq<string>, q: seq<string>, qIn: bool)
    requires Encodable(c) && Encodable(q) && Join(c) + [COLLECTION_SEPARATOR] <= Encoding(q, qIn)
    ensures qIn && |q| > 1 && q[..|q| - 1] == c
  {
    hide Escape, Join, DecodeFrom, Decoding;
    var x, n := Encoding(q, qIn), |q| - 1;
    var rest := x[|Join(c)|..];
    assert x == Join(c) + rest && rest[0] == COLLECTION_SEPARATOR;
    FirstBareJoin(c, rest);
    if qIn && n > 0 {
      assert forall m :: m in q[..n] ==> m in q;
      var tail := [COLLECTION_SEPARATOR] + Escape(q[n]);
      assert x == Join(q[..n]) + tail;
      FirstBareJoin(q[..n], tail);
      assert Join(q[..n]) == x[..|Join(c)|] == Join(c);
      JoinDecodes(c);
      JoinDecodes(q[..n]);
    } else {
      assert Join(q) + "" == Join(q);
      FirstBareJoin(q, "");
    }
  }

  lemma {:induction false} SeparatorRange(s: string, x: string)
    ensures InRange(s + [COLLECTION_SEPARATOR], x, s + [NAME_SEPARATOR]) <==> s + [COLLECTION_SEPARATOR] <= x
  {
    if s == "" {
      assert s + [COLLECTION_SEPARATOR] == [COLLECTION_SEPARATOR] && s + [NAME_SEPARATOR] == [NAME_SEPARATOR];
      if x != "" {
        assert !Less(x[1..], [COLLECTION_SEPARATOR][1..]) && !Less(x[1..], [NAME_SEPARATOR][1..]);
        assert [COLLECTION_SEPARATOR] <= x <==> x[0] == COLLECTION_SEPARATOR;
      }
    } else if x != "" {
      SeparatorRange(s[1..], x[1..]);
      assert (s + [COLLECTION_SEPARATOR])[1..] == s[1..] + [COLLECTION_SEPARATOR];
      assert (s + [NAME_SEPARATOR])[1..] == s[1..] + [NAME_SEPARATOR];
      assert s + [COLLECTION_SEPARATOR] <= x <==>
        s[0] == x[0] && s[1..] + [COLLECTION_SEPARATOR] <= x[1..];
    }
  }

  /** The query for the children of a collection returns exactly its immediate children. */
  lemma CollectionRange(c: seq<string>, q: seq<string>, qIn: bool)
    requires Encodable(c) && Encodable(q) && c != []
    ensures InRange(Join(c) + [COLLECTION_SEPARATOR], Encoding(q, qIn), Join(c) + [NAME_SEPARATOR])
      <==> qIn && |q| == |c| + 1 && c <= q
  {
    SeparatorRange(Join(c), Encoding(q, qIn));
    if qIn && |q| == |c| + 1 && c <= q {
      assert q[..|q| - 1] == c;
    } else if Join(c) + [COLLECTION_SEPARATOR] <= Encoding(q, qIn) {
      CollectionPrefix(c, q, qIn);
    }
  }

  /**
    For a collection's direct child the sub-tree query finds the child alone: it returns the
    sub-tree exactly when the child has no descendants.
   */
  lemma ItemRangeFindsOnlyTheItem(p: seq<string>, q: seq<string>, qIn: bool)
    requires Encodable(p) && Encodable(q) && |p| > 1
    ensures InRange(Encoding(p, true), Encoding(q, qIn), Encoding(p, true) + ['%']) <==> q == p && qIn
  {
    hide Escape, Join, DecodeFrom, Decoding, InRange;
    var e, x, n := Encoding(p, true), Encoding(q, qIn), |p| - 1;
    RangeIsPrefix(e, x, '%');
    if e <= x {
      var rest := x[|e|..];
      assert x == e + rest;
      assert Join(p[..n]) + [COLLECTION_SEPARATOR] <= x && forall m :: m in p[..n] ==> m in p;
      CollectionPrefix(p[..n], q, qIn);
      assert Escape(q[|q| - 1]) == x[|Join(p[..n])| + 1..] == Escape(p[n]) + rest;
      if rest == "" {
        assert x == e;
        RoundTrip(p, true);
        RoundTrip(q, qIn);
      } else if rest[0] < '%' {
        NoSeparatorFollows(p, q, qIn, rest);
        assert false;
      }
    }
  }

  /** In an encoded name nothing below `%` stands unescaped. */
  lemma NoSeparatorFollows(p: seq<string>, q: seq<string>, qIn: bool, rest: string)
    requires Encodable(p) && Encodable(q) && |p| > 1 && q != []
    requires Encoding(q, qIn) == Encoding(p, true) + rest && Escape(q[|q| - 1]) == Escape(p[|p| - 1]) + rest
    ensures rest == "" || rest[0] >= '%'
  {
    hide Escape, Join, DecodeFrom, Decoding;
    var n := |p| - 1;
    if rest != "" && rest[0] < '%' {
      EncodingIsClean(q, qIn);
      var after := [COLLECTION_SEPARATOR] + Escape(p[n]) + rest;
      assert Encoding(q, qIn) == Join(p[..n]) + after && forall m :: m in p[..n] ==> m in p;
      CleanJoin(p[..n], after);
      assert after[1..] == Escape(p[n]) + rest;
      CleanEscaped(p[n], rest);
      assert Escape(q[|q| - 1]) + "" == Escape(q[|q| - 1]);
      FirstBareEscaped(p[n], rest, true);
      FirstBareEscaped(q[|q| - 1], "", true);
      assert false;
    }
  }
}
