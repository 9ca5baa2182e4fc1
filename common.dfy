/** Shared vocabulary: optional values, JavaScript truthiness of strings and the
    handful of string operations the application uses (trim, ASCII case folding,
    substring search, split and join, trailing-slash removal). */
module Common {

  datatype Option<+T> = None | Some(value: T)

  /** JavaScript truthiness of an optional string: present and not empty. */
  predicate Truthy(o: Option<string>) {
    o.Some? && o.value != ""
  }

  /** `o || fallback` for an optional string. */
  function Or(o: Option<string>, fallback: string): string {
    if Truthy(o) then o.value else fallback
  }

  /** `o || ''`. */
  function OrEmpty(o: Option<string>): string {
    Or(o, "")
  }

  /** `a || b` for two optional strings, keeping the result optional. */
  function OrElse(a: Option<string>, b: Option<string>): Option<string> {
    if Truthy(a) then a else b
  }

  /** The elements of a list that are present and non-empty (`filter(Boolean)`). */
  function NonEmpty(parts: seq<string>): (r: seq<string>)
    ensures forall k :: 0 <= k < |r| ==> r[k] != ""
    ensures |r| <= |parts|
  {
    if parts == [] then []
    else if parts[0] == "" then NonEmpty(parts[1..])
    else [parts[0]] + NonEmpty(parts[1..])
  }

  function OptionToSeq(o: Option<string>): seq<string> {
    if o.Some? then [o.value] else []
  }

  // ---------------------------------------------------------------------------
  // Whitespace and trimming (String.prototype.trim)

  /** The ECMAScript WhiteSpace and LineTerminator code points. */
  predicate IsJsWhitespace(c: char) {
    c == '\t' || c == '\n' || c == '\U{000B}' || c == '\U{000C}' || c == '\r' || c == ' '
    || c == '\U{00A0}' || c == '\U{1680}' || ('\U{2000}' <= c <= '\U{200A}')
    || c == '\U{2028}' || c == '\U{2029}' || c == '\U{202F}' || c == '\U{205F}'
    || c == '\U{3000}' || c == '\U{FEFF}'
  }

  function TrimStart(s: string): string {
    if |s| > 0 && IsJsWhitespace(s[0]) then TrimStart(s[1..]) else s
  }

  function TrimEnd(s: string): string {
    if |s| > 0 && IsJsWhitespace(s[|s| - 1]) then TrimEnd(s[..|s| - 1]) else s
  }

  /** `trimStart` drops exactly the leading whitespace: what is left is a
      suffix that does not start with whitespace, and everything before it is
      whitespace. */
  lemma {:induction false} TrimStartSpec(s: string)
    ensures var r := TrimStart(s);
      && |r| <= |s| && r == s[|s| - |r|..]
      && (r == [] || !IsJsWhitespace(r[0]))
      && forall k :: 0 <= k < |s| - |r| ==> IsJsWhitespace(s[k])
    decreases |s|
  {
    if |s| > 0 && IsJsWhitespace(s[0]) {
      var r := TrimStart(s[1..]);
      TrimStartSpec(s[1..]);
      assert r == s[|s| - |r|..];
      forall k | 1 <= k < |s| - |r|
        ensures IsJsWhitespace(s[k])
      {
        assert s[k] == s[1..][k - 1];
      }
    } else {
      assert s[0..] == s;
    }
  }

  /** `trimEnd` drops exactly the trailing whitespace. */
  lemma {:induction false} TrimEndSpec(s: string)
    ensures var r := TrimEnd(s);
      && |r| <= |s| && r == s[..|r|]
      && (r == [] || !IsJsWhitespace(r[|r| - 1]))
      && forall k :: |r| <= k < |s| ==> IsJsWhitespace(s[k])
    decreases |s|
  {
    if |s| > 0 && IsJsWhitespace(s[|s| - 1]) {
      var r := TrimEnd(s[..|s| - 1]);
      TrimEndSpec(s[..|s| - 1]);
      assert r == s[..|r|];
      forall k | |r| <= k < |s| - 1
        ensures IsJsWhitespace(s[k])
      {
        assert s[k] == s[..|s| - 1][k];
      }
    } else {
      assert s[..|s|] == s;
    }
  }

  /** Trimming leaves nothing exactly when the string is all whitespace. */
  lemma TrimEmpty(s: string)
    ensures Trim(s) == [] <==> AllWhitespace(s)
  {
    var pre, suf := Untrim(s);
    var c := Trim(s);
    TrimEnds(s);
    if c != [] {
      assert s[|pre|] == c[0];
    }
  }

  /** A trimmed string neither starts nor ends with whitespace. */
  lemma TrimEnds(s: string)
    ensures var c := Trim(s); c != [] ==> !IsJsWhitespace(c[0]) && !IsJsWhitespace(c[|c| - 1])
  {
    var t := TrimStart(s);
    TrimStartSpec(s);
    TrimEndSpec(t);
    var c := TrimEnd(t);
    if c != [] {
      assert c[0] == t[0];
    }
  }

  function Trim(s: string): string {
    TrimEnd(TrimStart(s))
  }

  predicate AllWhitespace(s: string) {
    forall k :: 0 <= k < |s| ==> IsJsWhitespace(s[k])
  }

  lemma {:induction false} TrimStartPadded(a: string, b: string)
    requires AllWhitespace(a)
    requires b == [] || !IsJsWhitespace(b[0])
    ensures TrimStart(a + b) == b
    decreases |a|
  {
    if a != [] {
      assert (a + b)[1..] == a[1..] + b;
      TrimStartPadded(a[1..], b);
    }
  }

  lemma {:induction false} TrimEndPadded(a: string, b: string)
    requires AllWhitespace(b)
    requires a == [] || !IsJsWhitespace(a[|a| - 1])
    ensures TrimEnd(a + b) == a
    decreases |b|
  {
    if b != [] {
      assert (a + b)[..|a + b| - 1] == a + b[..|b| - 1];
      TrimEndPadded(a, b[..|b| - 1]);
    }
  }

  /** The input is the trimmed text between a whitespace prefix and suffix. */
  lemma Untrim(s: string) returns (pre: string, suf: string)
    ensures s == pre + Trim(s) + suf
    ensures AllWhitespace(pre) && AllWhitespace(suf)
  {
    var t := TrimStart(s);
    TrimStartSpec(s);
    pre := s[..|s| - |t|];
    WhitespacePrefix(s, t);
    var r := TrimEnd(t);
    TrimEndSpec(t);
    suf := t[|r|..];
    WhitespaceSuffix(t, r);
    ConcatAssoc(pre, r, suf);
  }

  /** A prefix one longer is the prefix with the next element appended. */
  lemma TakeNext<T>(s: seq<T>, i: nat)
    requires i < |s|
    ensures s[..i + 1] == s[..i] + [s[i]]
  {
  }

  lemma ConcatAssoc<T>(a: seq<T>, b: seq<T>, c: seq<T>)
    ensures a + (b + c) == a + b + c
  {
  }

  lemma WhitespacePrefix(s: string, t: string)
    requires |t| <= |s| && t == s[|s| - |t|..]
    requires forall k :: 0 <= k < |s| - |t| ==> IsJsWhitespace(s[k])
    ensures s == s[..|s| - |t|] + t && AllWhitespace(s[..|s| - |t|])
  {
    assert s == s[..|s| - |t|] + s[|s| - |t|..];
  }

  lemma WhitespaceSuffix(t: string, r: string)
    requires |r| <= |t| && r == t[..|r|]
    requires forall k :: |r| <= k < |t| ==> IsJsWhitespace(t[k])
    ensures t == r + t[|r|..] && AllWhitespace(t[|r|..])
  {
    assert t == t[..|r|] + t[|r|..];
    forall j | 0 <= j < |t| - |r|
      ensures IsJsWhitespace(t[|r|..][j])
    {
      assert t[|r|..][j] == t[|r| + j];
    }
  }

  /** `s.replace(from, to)` with a one-character pattern: the first occurrence. */
  function ReplaceFirst(s: string, from: char, to: char): (r: string)
    ensures |r| == |s|
  {
    if s == [] then []
    else if s[0] == from then [to] + s[1..]
    else [s[0]] + ReplaceFirst(s[1..], from, to)
  }

  lemma {:induction false} ReplaceFirstAbsent(s: string, from: char, to: char)
    requires from !in s
    ensures ReplaceFirst(s, from, to) == s
  {
    if s != [] {
      ReplaceFirstAbsent(s[1..], from, to);
    }
  }

  lemma {:induction false} ReplaceFirstAfter(a: string, b: string, from: char, to: char)
    requires from !in a
    ensures ReplaceFirst(a + b, from, to) == a + ReplaceFirst(b, from, to)
  {
    if a != [] {
      assert (a + b)[1..] == a[1..] + b;
      ReplaceFirstAfter(a[1..], b, from, to);
      assert a == [a[0]] + a[1..];
    } else {
      assert a + b == b;
    }
  }

  lemma {:induction false} ReplaceFirstBefore(a: string, b: string, from: char, to: char)
    requires from in a
    ensures ReplaceFirst(a + b, from, to) == ReplaceFirst(a, from, to) + b
  {
    if a[0] != from {
      assert (a + b)[1..] == a[1..] + b;
      ReplaceFirstBefore(a[1..], b, from, to);
    } else {
      assert (a + b)[1..] == a[1..] + b;
    }
  }

  lemma {:induction false} ReplaceFirstPointwise(s: string, from: char, to: char)
    ensures forall k :: 0 <= k < |s| ==>
      ReplaceFirst(s, from, to)[k] == s[k] || (s[k] == from && ReplaceFirst(s, from, to)[k] == to)
  {
    if s != [] && s[0] != from {
      ReplaceFirstPointwise(s[1..], from, to);
    }
  }

  lemma ReplaceFirstPadded(pre: string, c: string, suf: string, from: char, to: char)
    requires from !in pre && from !in suf
    ensures ReplaceFirst(pre + c + suf, from, to) == pre + ReplaceFirst(c, from, to) + suf
  {
    assert pre + c + suf == pre + (c + suf);
    ReplaceFirstAfter(pre, c + suf, from, to);
    if from in c {
      ReplaceFirstBefore(c, suf, from, to);
    } else {
      ReplaceFirstAbsent(c, from, to);
      ReplaceFirstAbsent(suf, from, to);
      ReplaceFirstAfter(c, suf, from, to);
    }
  }

  lemma TrimPadded(pre: string, c: string, suf: string)
    requires AllWhitespace(pre) && AllWhitespace(suf)
    requires c != [] ==> !IsJsWhitespace(c[0]) && !IsJsWhitespace(c[|c| - 1])
    ensures Trim(pre + c + suf) == c
  {
    if c != [] {
      assert pre + c + suf == pre + (c + suf);
      assert (c + suf)[0] == c[0];
      TrimStartPadded(pre, c + suf);
      TrimEndPadded(c, suf);
    } else {
      assert pre + c + suf == (pre + suf) + [];
      TrimStartPadded(pre + suf, []);
    }
  }

  /** Replacing a non-whitespace character by another commutes with trimming. */
  lemma TrimReplaceFirst(s: string, from: char, to: char)
    requires !IsJsWhitespace(from) && !IsJsWhitespace(to)
    ensures Trim(ReplaceFirst(s, from, to)) == ReplaceFirst(Trim(s), from, to)
  {
    var pre, suf := Untrim(s);
    var c := Trim(s);
    var c' := ReplaceFirst(c, from, to);
    assert from !in pre && from !in suf;
    ReplaceFirstPadded(pre, c, suf, from, to);
    ReplaceFirstPointwise(c, from, to);
    TrimEnds(s);
    if c' != [] {
      assert c'[0] == c[0] || c'[0] == to;
      assert c'[|c'| - 1] == c[|c| - 1] || c'[|c'| - 1] == to;
      assert !IsJsWhitespace(c[0]) && !IsJsWhitespace(c[|c| - 1]);
    }
    TrimPadded(pre, c', suf);
  }

  // ---------------------------------------------------------------------------
  // ASCII case folding

  function LowerChar(c: char): char {
    if 'A' <= c <= 'Z' then (c as int + 32) as char else c
  }

  function Lower(s: string): (r: string)
    ensures |r| == |s|
    ensures forall k :: 0 <= k < |s| ==> r[k] == LowerChar(s[k])
  {
    if s == [] then [] else [LowerChar(s[0])] + Lower(s[1..])
  }

  /** Equality ignoring ASCII case. */
  predicate EqualsIgnoreCase(a: string, b: string) {
    Lower(a) == Lower(b)
  }

  /** `s` starts with `p`, ignoring ASCII case. */
  predicate StartsWithIgnoreCase(s: string, p: string) {
    |p| <= |s| && EqualsIgnoreCase(s[..|p|], p)
  }

  // ---------------------------------------------------------------------------
  // Substrings

  predicate StartsWith(s: string, p: string) {
    |p| <= |s| && s[..|p|] == p
  }

  /** `s.includes(sub)`. */
  predicate Contains(s: string, sub: string)
    decreases |s|
  {
    StartsWith(s, sub) || (|s| > 0 && Contains(s[1..], sub))
  }

  /** `sub` occurs in `s` at position `k`. */
  predicate OccursAt(s: string, sub: string, k: int) {
    0 <= k <= |s| - |sub| && s[k..k + |sub|] == sub
  }

  /** The recursive search agrees with "occurs at some position". */
  lemma {:induction false} ContainsAt(s: string, sub: string)
    ensures Contains(s, sub) <==> exists k :: OccursAt(s, sub, k)
    decreases |s|
  {
    if StartsWith(s, sub) {
      assert OccursAt(s, sub, 0);
    } else if |s| > 0 {
      ContainsAt(s[1..], sub);
      if Contains(s[1..], sub) {
        var k :| OccursAt(s[1..], sub, k);
        assert s[k + 1..k + 1 + |sub|] == s[1..][k..k + |sub|];
        assert OccursAt(s, sub, k + 1);
      }
      if exists k :: OccursAt(s, sub, k) {
        var k :| OccursAt(s, sub, k);
        assert k != 0;
        assert s[1..][k - 1..k - 1 + |sub|] == s[k..k + |sub|];
        assert OccursAt(s[1..], sub, k - 1);
      }
    } else {
      assert forall k :: !OccursAt(s, sub, k);
    }
  }

  // ---------------------------------------------------------------------------
  // Trailing slashes (`s.replace(/\/+$/, '')`)

  function StripTrailingSlashes(s: string): (r: string)
    ensures |r| <= |s| && r == s[..|r|]
  {
    if |s| > 0 && s[|s| - 1] == '/' then StripTrailingSlashes(s[..|s| - 1]) else s
  }

  /** What the regular expression replacement promises: the result does not end in
      '/', and what was removed consists of slashes only. */
  lemma {:induction false} StripTrailingSlashesSpec(s: string)
    ensures var r := StripTrailingSlashes(s);
      (r == [] || r[|r| - 1] != '/')
      && (forall k :: |r| <= k < |s| ==> s[k] == '/')
  {
    if |s| > 0 && s[|s| - 1] == '/' {
      StripTrailingSlashesSpec(s[..|s| - 1]);
    }
  }

  lemma {:induction false} StripTrailingSlashesIdempotent(s: string)
    ensures StripTrailingSlashes(StripTrailingSlashes(s)) == StripTrailingSlashes(s)
  {
    StripTrailingSlashesSpec(s);
  }

  // ---------------------------------------------------------------------------
  // Split and join on one separator character

  /** `parts.join(sep)`. */
  function Join(parts: seq<string>, sep: string): string {
    if parts == [] then ""
    else if |parts| == 1 then parts[0]
    else parts[0] + sep + Join(parts[1..], sep)
  }

  /** `s.split(c)` for a one-character separator. */
  function Split(s: string, c: char): (r: seq<string>)
    ensures |r| >= 1
  {
    if s == [] then [""]
    else if s[0] == c then [""] + Split(s[1..], c)
    else var t := Split(s[1..], c); [[s[0]] + t[0]] + t[1..]
  }

  /** Splitting and joining again gives back the input. */
  lemma {:induction false} JoinSplit(s: string, c: char)
    ensures Join(Split(s, c), [c]) == s
  {
    if s != [] {
      JoinSplit(s[1..], c);
      var t := Split(s[1..], c);
      if s[0] != c {
        if |t| == 1 {
          assert Split(s, c) == [[s[0]] + t[0]];
        } else {
          assert Split(s, c)[1..] == t[1..];
        }
      }
    }
  }

  /** No piece produced by a split contains the separator. */
  lemma {:induction false} SplitPiecesFree(s: string, c: char)
    ensures forall k :: 0 <= k < |Split(s, c)| ==> c !in Split(s, c)[k]
  {
    if s != [] {
      SplitPiecesFree(s[1..], c);
    }
  }

  /** Joining pieces that do not contain the separator and splitting again gives
      back the pieces. */
  lemma {:induction false} SplitJoin(parts: seq<string>, c: char)
    requires |parts| >= 1
    requires forall k :: 0 <= k < |parts| ==> c !in parts[k]
    ensures Split(Join(parts, [c]), c) == parts
    decreases |parts|, |parts[0]|
  {
    if parts[0] == [] {
      if |parts| > 1 {
        assert Join(parts, [c]) == [c] + Join(parts[1..], [c]);
        SplitJoin(parts[1..], c);
      }
    } else {
      var p0 := parts[0];
      var rest := [p0[1..]] + parts[1..];
      assert forall k :: 0 <= k < |rest| ==> c !in rest[k] by {
        assert forall k :: 1 <= k < |rest| ==> rest[k] == parts[k];
      }
      SplitJoin(rest, c);
      if |parts| == 1 {
        assert Join(parts, [c]) == [p0[0]] + Join(rest, [c]);
      } else {
        assert Join(parts, [c]) == [p0[0]] + Join(rest, [c]);
      }
      assert [p0[0]] + p0[1..] == p0;
    }
  }

  // ---------------------------------------------------------------------------
  // Ensure-once lists and insertion-ordered sets

  /** `if (!xs.includes(x)) xs.push(x)`; also `Set.add` on a set kept as the
      list of its members in insertion order. */
  function AddOnce(xs: seq<string>, x: string): seq<string> {
    if x in xs then xs else xs + [x]
  }

  /** The element is there afterwards, the old ones keep their order in front of
      it, at most one is added, and a second call changes nothing. */
  lemma AddOnceSpec(xs: seq<string>, x: string)
    ensures x in AddOnce(xs, x)
    ensures xs <= AddOnce(xs, x) && |AddOnce(xs, x)| <= |xs| + 1
    ensures (x in xs) <==> AddOnce(xs, x) == xs
    ensures AddOnce(AddOnce(xs, x), x) == AddOnce(xs, x)
    ensures forall y :: y in AddOnce(xs, x) <==> y in xs || y == x
  {
  }

  predicate NoDuplicates(xs: seq<string>) {
    forall i, j :: 0 <= i < j < |xs| ==> xs[i] != xs[j]
  }

  /** Adding the elements of `us` one after the other. */
  function AddAll(xs: seq<string>, us: seq<string>): seq<string>
    decreases us
  {
    if us == [] then xs else AddAll(AddOnce(xs, us[0]), us[1..])
  }

  /** The old members stay in front; afterwards the members are exactly the old
      ones and the added ones; a list without duplicates stays without them; and
      when nothing repeats, the added elements follow in their own order. */
  lemma AddAllSpec(xs: seq<string>, us: seq<string>)
    ensures xs <= AddAll(xs, us)
    ensures forall y :: y in AddAll(xs, us) <==> y in xs || y in us
    ensures NoDuplicates(xs) ==> NoDuplicates(AddAll(xs, us))
    ensures NoDuplicates(xs + us) ==> AddAll(xs, us) == xs + us
  {
    AddAllPrefix(xs, us);
    AddAllMembers(xs, us);
    if NoDuplicates(xs) {
      AddAllNoDuplicates(xs, us);
    }
    if NoDuplicates(xs + us) {
      AddAllDistinct(xs, us);
    }
  }

  lemma {:induction false} AddAllPrefix(xs: seq<string>, us: seq<string>)
    ensures xs <= AddAll(xs, us)
    decreases us
  {
    if us != [] {
      AddAllPrefix(AddOnce(xs, us[0]), us[1..]);
    }
  }

  lemma {:induction false} AddAllMembers(xs: seq<string>, us: seq<string>)
    ensures forall y :: y in AddAll(xs, us) <==> y in xs || y in us
    decreases us
  {
    if us != [] {
      AddAllMembers(AddOnce(xs, us[0]), us[1..]);
      assert us == [us[0]] + us[1..];
    }
  }

  lemma {:induction false} AddAllNoDuplicates(xs: seq<string>, us: seq<string>)
    requires NoDuplicates(xs)
    ensures NoDuplicates(AddAll(xs, us))
    decreases us
  {
    if us != [] {
      var ys := AddOnce(xs, us[0]);
      assert NoDuplicates(ys) by {
        if us[0] !in xs {
          assert forall i :: 0 <= i < |xs| ==> ys[i] == xs[i];
        }
      }
      AddAllNoDuplicates(ys, us[1..]);
    }
  }

  lemma {:induction false} AddAllDistinct(xs: seq<string>, us: seq<string>)
    requires NoDuplicates(xs + us)
    ensures AddAll(xs, us) == xs + us
    decreases us
  {
    if us != [] {
      var ys := AddOnce(xs, us[0]);
      forall i | 0 <= i < |xs|
        ensures xs[i] != us[0]
      {
        assert (xs + us)[i] == xs[i] && (xs + us)[|xs|] == us[0];
      }
      assert ys == xs + [us[0]];
      ConcatAssoc(xs, [us[0]], us[1..]);
      assert [us[0]] + us[1..] == us;
      AddAllDistinct(ys, us[1..]);
    } else {
      assert xs + us == xs;
    }
  }

  lemma AddAllSingle(xs: seq<string>, u: string)
    ensures AddAll(xs, [u]) == AddOnce(xs, u)
  {
    assert [u][1..] == [];
  }

  /** Adding a concatenation is adding one part after the other. */
  lemma {:induction false} AddAllConcat(xs: seq<string>, a: seq<string>, b: seq<string>)
    ensures AddAll(xs, a + b) == AddAll(AddAll(xs, a), b)
    decreases a
  {
    if a == [] {
      assert a + b == b;
    } else {
      assert (a + b)[0] == a[0];
      assert (a + b)[1..] == a[1..] + b;
      AddAllConcat(AddOnce(xs, a[0]), a[1..], b);
    }
  }

  // ---------------------------------------------------------------------------
  // Details tables: `if (x.f) rows.push([label, x.f])`, one field after the other

  /** The rows for the fields whose value is present and not empty, in the order
      of the candidates. */
  function Rows(cands: seq<(string, Option<string>)>): (r: seq<(string, string)>)
    ensures |r| <= |cands|
    ensures forall k :: 0 <= k < |r| ==> r[k].1 != ""
  {
    if cands == [] then []
    else if Truthy(cands[0].1) then [(cands[0].0, cands[0].1.value)] + Rows(cands[1..])
    else Rows(cands[1..])
  }

  /** A row is there exactly for a candidate with a non-empty value. */
  lemma {:induction false} RowsSpec(cands: seq<(string, Option<string>)>)
    ensures forall key, v :: (key, v) in Rows(cands) <==>
      exists i :: 0 <= i < |cands| && cands[i] == (key, Some(v)) && v != ""
  {
    if cands != [] {
      RowsSpec(cands[1..]);
      forall key, v | (exists i :: 0 <= i < |cands[1..]| && cands[1..][i] == (key, Some(v)) && v != "")
        ensures exists i :: 0 <= i < |cands| && cands[i] == (key, Some(v)) && v != ""
      {
        var i :| 0 <= i < |cands[1..]| && cands[1..][i] == (key, Some(v)) && v != "";
        assert cands[i + 1] == (key, Some(v));
      }
      forall key, v | (exists i :: 0 <= i < |cands| && cands[i] == (key, Some(v)) && v != "")
        ensures (key, v) in Rows(cands)
      {
        var i :| 0 <= i < |cands| && cands[i] == (key, Some(v)) && v != "";
        if i > 0 {
          assert cands[1..][i - 1] == (key, Some(v));
        }
      }
    }
  }

  /** Rows of earlier candidates come before rows of later ones. */
  lemma {:induction false} RowsConcat(a: seq<(string, Option<string>)>, b: seq<(string, Option<string>)>)
    ensures Rows(a + b) == Rows(a) + Rows(b)
  {
    if a == [] {
      assert a + b == b;
    } else {
      assert (a + b)[0] == a[0];
      assert (a + b)[1..] == a[1..] + b;
      RowsConcat(a[1..], b);
    }
  }

  // ---------------------------------------------------------------------------
  // `filter(Boolean)` and `join`

  /** `xs.filter(Boolean)[0]`: the first non-empty element is the first element
      after filtering. */
  lemma {:induction false} NonEmptyHead(xs: seq<string>)
    ensures NonEmpty(xs) == [] <==> forall k :: 0 <= k < |xs| ==> xs[k] == ""
    ensures NonEmpty(xs) != [] ==>
      exists k :: 0 <= k < |xs| && xs[k] != "" && NonEmpty(xs)[0] == xs[k] && forall j :: 0 <= j < k ==> xs[j] == ""
  {
    if xs != [] {
      NonEmptyHead(xs[1..]);
      if xs[0] == "" && NonEmpty(xs) != [] {
        var k :| 0 <= k < |xs[1..]| && xs[1..][k] != "" && NonEmpty(xs[1..])[0] == xs[1..][k]
          && forall j :: 0 <= j < k ==> xs[1..][j] == "";
        assert xs[k + 1] != "" && NonEmpty(xs)[0] == xs[k + 1];
        assert forall j :: 0 <= j < k + 1 ==> xs[j] == "" by {
          assert forall j :: 1 <= j < k + 1 ==> xs[j] == xs[1..][j - 1];
        }
      }
      if xs[0] == "" {
        assert forall k :: 1 <= k < |xs| ==> xs[k] == xs[1..][k - 1];
      }
    }
  }

  /** Filtering a list without empty elements keeps it. */
  lemma {:induction false} NonEmptyKeeps(xs: seq<string>)
    requires forall k :: 0 <= k < |xs| ==> xs[k] != ""
    ensures NonEmpty(xs) == xs
  {
    if xs != [] {
      NonEmptyKeeps(xs[1..]);
    }
  }

  /** Joining non-empty parts is empty only for no parts. */
  lemma {:induction false} JoinEmpty(parts: seq<string>, sep: string)
    requires forall k :: 0 <= k < |parts| ==> parts[k] != ""
    ensures Join(parts, sep) == "" <==> parts == []
  {
    if |parts| > 1 {
      assert |Join(parts, sep)| >= |parts[0]|;
    }
  }
}
