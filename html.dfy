/** HTML escaping for the narrative builders: the five global replacements of
    `esc`, their per-character reading and the inverse that decodes the five
    entities again. */
module Html {
  import opened Common

  // The five entities `esc` writes.
  const AmpEntity: string := "&amp;"
  const LtEntity: string := "&lt;"
  const GtEntity: string := "&gt;"
  const QuotEntity: string := "&quot;"
  const AposEntity: string := "&#39;"

  /** `s.replace(/c/g, rep)` for a one-character pattern. */
  function ReplaceAll(s: string, c: char, rep: string): string {
    if s == [] then []
    else (if s[0] == c then rep else [s[0]]) + ReplaceAll(s[1..], c, rep)
  }

  /** `esc`: '&' first, so the entities introduced later are not escaped again. */
  function Esc(s: string): string {
    ReplaceAll(ReplaceAll(ReplaceAll(ReplaceAll(ReplaceAll(s, '&', AmpEntity), '<', LtEntity), '>', GtEntity), '"', QuotEntity), '\'', AposEntity)
  }

  /** The escape of a single character. */
  function EscChar(c: char): string {
    if c == '&' then AmpEntity
    else if c == '<' then LtEntity
    else if c == '>' then GtEntity
    else if c == '"' then QuotEntity
    else if c == '\'' then AposEntity
    else [c]
  }

  /** Escaping character by character. */
  function EscChars(s: string): string {
    if s == [] then [] else EscChar(s[0]) + EscChars(s[1..])
  }

  lemma {:induction false} ReplaceAllConcat(a: string, b: string, c: char, rep: string)
    ensures ReplaceAll(a + b, c, rep) == ReplaceAll(a, c, rep) + ReplaceAll(b, c, rep)
    decreases |a|
  {
    if a != [] {
      assert (a + b)[1..] == a[1..] + b;
      ReplaceAllConcat(a[1..], b, c, rep);
    } else {
      assert a + b == b;
    }
  }

  lemma EscConcat(a: string, b: string)
    ensures Esc(a + b) == Esc(a) + Esc(b)
  {
    var s1a, s1b := ReplaceAll(a, '&', AmpEntity), ReplaceAll(b, '&', AmpEntity);
    ReplaceAllConcat(a, b, '&', AmpEntity);
    var s2a, s2b := ReplaceAll(s1a, '<', LtEntity), ReplaceAll(s1b, '<', LtEntity);
    ReplaceAllConcat(s1a, s1b, '<', LtEntity);
    var s3a, s3b := ReplaceAll(s2a, '>', GtEntity), ReplaceAll(s2b, '>', GtEntity);
    ReplaceAllConcat(s2a, s2b, '>', GtEntity);
    var s4a, s4b := ReplaceAll(s3a, '"', QuotEntity), ReplaceAll(s3b, '"', QuotEntity);
    ReplaceAllConcat(s3a, s3b, '"', QuotEntity);
    ReplaceAllConcat(s4a, s4b, '\'', AposEntity);
  }

  lemma {:induction false} ReplaceAllAbsent(s: string, c: char, rep: string)
    requires c !in s
    ensures ReplaceAll(s, c, rep) == s
    decreases |s|
  {
    if s != [] {
      ReplaceAllAbsent(s[1..], c, rep);
      assert s == [s[0]] + s[1..];
    }
  }

  lemma ReplaceAllOne(c: char, d: char, rep: string)
    ensures ReplaceAll([c], d, rep) == if c == d then rep else [c]
  {
    assert [c][1..] == [];
  }

  /** No entity holds a character that a later replacement of the chain
      rewrites. */
  lemma EntitiesPlain()
    ensures '<' !in AmpEntity && '>' !in AmpEntity && '"' !in AmpEntity && '\'' !in AmpEntity
    ensures '>' !in LtEntity && '"' !in LtEntity && '\'' !in LtEntity
    ensures '"' !in GtEntity && '\'' !in GtEntity
    ensures '\'' !in QuotEntity
  {
  }

  lemma ChainAbsent(s: string, from: nat)
    requires from <= 4
    requires from <= 1 ==> '<' !in s
    requires from <= 2 ==> '>' !in s
    requires from <= 3 ==> '"' !in s
    requires '\'' !in s
    ensures from <= 1 ==> ReplaceAll(s, '<', LtEntity) == s
    ensures from <= 2 ==> ReplaceAll(s, '>', GtEntity) == s
    ensures from <= 3 ==> ReplaceAll(s, '"', QuotEntity) == s
    ensures ReplaceAll(s, '\'', AposEntity) == s
  {
    if from <= 1 { ReplaceAllAbsent(s, '<', LtEntity); }
    if from <= 2 { ReplaceAllAbsent(s, '>', GtEntity); }
    if from <= 3 { ReplaceAllAbsent(s, '"', QuotEntity); }
    ReplaceAllAbsent(s, '\'', AposEntity);
  }

  /** Escaping a one-character string is escaping that character: the later
      replacements of the chain leave the entity an earlier one wrote alone. */
  lemma EscSingle(c: char)
    ensures Esc([c]) == EscChar(c)
  {
    EntitiesPlain();
    var s1 := ReplaceAll([c], '&', AmpEntity);
    ReplaceAllOne(c, '&', AmpEntity);
    if c == '&' {
      ChainAbsent(s1, 1);
      return;
    }
    var s2 := ReplaceAll(s1, '<', LtEntity);
    ReplaceAllOne(c, '<', LtEntity);
    if c == '<' {
      ChainAbsent(s2, 2);
      return;
    }
    var s3 := ReplaceAll(s2, '>', GtEntity);
    ReplaceAllOne(c, '>', GtEntity);
    if c == '>' {
      ChainAbsent(s3, 3);
      return;
    }
    var s4 := ReplaceAll(s3, '"', QuotEntity);
    ReplaceAllOne(c, '"', QuotEntity);
    if c == '"' {
      ChainAbsent(s4, 4);
      return;
    }
    ReplaceAllOne(c, '\'', AposEntity);
  }

  /** The chain of replacements escapes each character on its own. */
  lemma {:induction false} EscIsPerCharacter(s: string)
    ensures Esc(s) == EscChars(s)
    decreases |s|
  {
    if s != [] {
      assert s == [s[0]] + s[1..];
      EscConcat([s[0]], s[1..]);
      EscSingle(s[0]);
      EscIsPerCharacter(s[1..]);
    }
  }

  /** Decodes the five entities `esc` produces; any other text is kept. */
  function Unescape(s: string): string
    decreases |s|
  {
    if s == [] then []
    else if |s| >= 5 && s[..5] == AmpEntity then "&" + Unescape(s[5..])
    else if |s| >= 4 && s[..4] == LtEntity then "<" + Unescape(s[4..])
    else if |s| >= 4 && s[..4] == GtEntity then ">" + Unescape(s[4..])
    else if |s| >= 6 && s[..6] == QuotEntity then "\"" + Unescape(s[6..])
    else if |s| >= 5 && s[..5] == AposEntity then "'" + Unescape(s[5..])
    else [s[0]] + Unescape(s[1..])
  }

  /** `e + rest` starts with `e`, followed by `rest`. */
  lemma PrefixSplit(e: string, rest: string)
    ensures (e + rest)[..|e|] == e && (e + rest)[|e|..] == rest
  {
  }

  /** A prefix of length `n` differs from `e` when their second characters differ. */
  lemma SecondDiffers(s: string, e: string, n: nat)
    requires 2 <= n <= |s| && |e| == n && s[1] != e[1]
    ensures s[..n] != e
  {
    assert s[..n][1] == s[1];
  }

  lemma UnescapeEntity(e: string, c: char, rest: string)
    requires e == EscChar(c) && c in "&<>\"'"
    ensures Unescape(e + rest) == [c] + Unescape(rest)
  {
    var s := e + rest;
    PrefixSplit(e, rest);
    assert s[1] == e[1];
    if c != '&' {
      if |s| >= 5 { SecondDiffers(s, AmpEntity, 5); }
      if c != '<' {
        SecondDiffers(s, LtEntity, 4);
        if c != '>' {
          SecondDiffers(s, GtEntity, 4);
          if c != '"' {
            if |s| >= 6 { SecondDiffers(s, QuotEntity, 6); }
          }
        }
      }
    }
  }

  lemma UnescapePlain(c: char, rest: string)
    requires c != '&'
    ensures Unescape([c] + rest) == [c] + Unescape(rest)
  {
    var s := [c] + rest;
    PrefixSplit([c], rest);
    if |s| >= 4 {
      assert s[..4][0] == c;
    }
  }

  lemma UnescapeStep(c: char, rest: string)
    ensures Unescape(EscChar(c) + rest) == [c] + Unescape(rest)
  {
    if c in "&<>\"'" {
      UnescapeEntity(EscChar(c), c, rest);
    } else {
      UnescapePlain(c, rest);
    }
  }

  /** Escaping loses nothing: decoding the entities gives the text back. */
  lemma {:induction false} UnescapeEsc(s: string)
    ensures Unescape(Esc(s)) == s
  {
    EscIsPerCharacter(s);
    UnescapeEscChars(s);
  }

  lemma {:induction false} UnescapeEscChars(s: string)
    ensures Unescape(EscChars(s)) == s
    decreases |s|
  {
    if s != [] {
      UnescapeStep(s[0], EscChars(s[1..]));
      UnescapeEscChars(s[1..]);
    }
  }

  predicate Markup(c: char) {
    c == '<' || c == '>' || c == '"' || c == '\''
  }

  /** Escaped text carries no markup character, so it cannot open a tag or leave
      an attribute value. */
  lemma {:induction false} EscNoMarkup(s: string)
    ensures forall k :: 0 <= k < |Esc(s)| ==> !Markup(Esc(s)[k])
  {
    EscIsPerCharacter(s);
    EscCharsNoMarkup(s);
  }

  lemma {:induction false} EscCharsNoMarkup(s: string)
    ensures forall k :: 0 <= k < |EscChars(s)| ==> !Markup(EscChars(s)[k])
    decreases |s|
  {
    if s != [] {
      EscCharsNoMarkup(s[1..]);
      var e := EscChar(s[0]);
      assert forall k :: 0 <= k < |e| ==> !Markup(e[k]);
      assert EscChars(s) == e + EscChars(s[1..]);
    }
  }

  /** Text without any of the five special characters is left as it is. */
  lemma {:induction false} EscPlain(s: string)
    requires forall k :: 0 <= k < |s| ==> !Markup(s[k]) && s[k] != '&'
    ensures Esc(s) == s
  {
    EscIsPerCharacter(s);
    EscCharsPlain(s);
  }

  lemma {:induction false} EscCharsPlain(s: string)
    requires forall k :: 0 <= k < |s| ==> !Markup(s[k]) && s[k] != '&'
    ensures EscChars(s) == s
    decreases |s|
  {
    if s != [] {
      EscCharsPlain(s[1..]);
      assert s == [s[0]] + s[1..];
    }
  }

  // ---------------------------------------------------------------------------
  // Counting tags

  const RowStart: string := "<tr><th>"
  const CellSep: string := "</th><td>"
  const RowEnd: string := "</td></tr>"

  /** One row of a two-column narrative table. */
  function TableRow(header: string, cell: string): string {
    RowStart + header + CellSep + cell + RowEnd
  }

  /** A row starts with `<tr><th>`. */
  lemma RowStartsWithHeader(header: string, cell: string)
    ensures |TableRow(header, cell)| > 6 && TableRow(header, cell)[6] == 'h'
  {
    var a := RowStart + header;
    assert a[6] == 'h';
    assert (a + CellSep)[6] == 'h';
    assert (a + CellSep + cell)[6] == 'h';
  }

  /** `pat` is a prefix of `s`, compared character by character. */
  predicate Prefix(pat: string, s: string) {
    pat == [] || (s != [] && pat[0] == s[0] && Prefix(pat[1..], s[1..]))
  }

  lemma {:induction false} PrefixIsPrefix(pat: string, s: string)
    ensures Prefix(pat, s) <==> pat <= s
  {
    if pat != [] && s != [] {
      PrefixIsPrefix(pat[1..], s[1..]);
    }
  }

  /** The number of positions at which `pat` occurs in `s`. */
  function Occurrences(s: string, pat: string): nat
    requires pat != []
    decreases |s|
  {
    if |s| < |pat| then 0
    else (if Prefix(pat, s) then 1 else 0) + Occurrences(s[1..], pat)
  }

  predicate NoLt(s: string) {
    forall k :: 0 <= k < |s| ==> s[k] != '<'
  }

  /** None of the last `n` characters of `s` is '<'. */
  predicate NoLtTail(s: string, n: nat) {
    forall k :: 0 <= k < |s| && |s| - n <= k ==> s[k] != '<'
  }

  lemma {:induction false} OccNoLt(s: string, pat: string)
    requires pat != [] && pat[0] == '<' && NoLt(s)
    ensures Occurrences(s, pat) == 0
    decreases |s|
  {
    if |s| >= |pat| {
      OccNoLt(s[1..], pat);
    }
  }

  /** A piece whose only '<' is its first character holds at most one tag. */
  lemma OccPiece(p: string, pat: string)
    requires pat != [] && pat[0] == '<' && p != [] && NoLt(p[1..])
    ensures Occurrences(p, pat) == if |p| >= |pat| && Prefix(pat, p) then 1 else 0
  {
    OccNoLt(p[1..], pat);
  }

  /** A tag starting with '<' cannot straddle the seam of a concatenation whose
      left part ends without '<'. */
  lemma {:induction false} OccConcat(a: string, b: string, pat: string)
    requires pat != [] && pat[0] == '<' && NoLtTail(a, |pat| - 1)
    ensures Occurrences(a + b, pat) == Occurrences(a, pat) + Occurrences(b, pat)
    decreases |a|
  {
    if a == [] {
      assert a + b == b;
    } else {
      assert (a + b)[1..] == a[1..] + b;
      assert forall k :: 0 <= k < |a[1..]| ==> a[1..][k] == a[k + 1];
      OccConcat(a[1..], b, pat);
      if |a| >= |pat| {
        PrefixIsPrefix(pat, a);
        PrefixIsPrefix(pat, a + b);
        assert (a + b)[..|pat|] == a[..|pat|];
      } else {
        assert a[0] != '<';
      }
    }
  }

  lemma NoLtTailConcat(a: string, b: string, n: nat)
    requires NoLtTail(a, n) && NoLt(b)
    ensures NoLtTail(a + b, n)
  {
    assert forall k :: 0 <= k < |a| ==> (a + b)[k] == a[k];
    assert forall k :: |a| <= k < |a + b| ==> (a + b)[k] == b[k - |a|];
  }

  lemma NoLtTailSuffix(a: string, b: string, n: nat)
    requires |b| >= n && NoLtTail(b, n)
    ensures NoLtTail(a + b, n)
  {
    assert forall k :: |a| <= k < |a + b| ==> (a + b)[k] == b[k - |a|];
  }

  lemma EscNoLt(s: string)
    ensures NoLt(Esc(s))
  {
    EscNoMarkup(s);
  }

  /** Tags in text interleaved with markup-free parts lie in the fixed parts. */
  lemma OccInterleaved(a1: string, h: string, a2: string, c: string, a3: string, pat: string)
    requires pat != [] && pat[0] == '<'
    requires NoLtTail(a1, |pat| - 1) && NoLt(h) && NoLt(c)
    requires |a2| >= |pat| - 1 && NoLtTail(a2, |pat| - 1)
    requires |a3| >= |pat| - 1 && NoLtTail(a3, |pat| - 1)
    ensures Occurrences(a1 + h + a2 + c + a3, pat)
      == Occurrences(a1, pat) + Occurrences(a2, pat) + Occurrences(a3, pat)
    ensures NoLtTail(a1 + h + a2 + c + a3, |pat| - 1)
  {
    var n := |pat| - 1;
    OccNoLt(h, pat);
    OccNoLt(c, pat);
    OccConcat(a1, h, pat);
    NoLtTailConcat(a1, h, n);
    OccConcat(a1 + h, a2, pat);
    NoLtTailSuffix(a1 + h, a2, n);
    OccConcat(a1 + h + a2, c, pat);
    NoLtTailConcat(a1 + h + a2, c, n);
    OccConcat(a1 + h + a2 + c, a3, pat);
    NoLtTailSuffix(a1 + h + a2 + c, a3, n);
  }

  /** No tag `pat` occurs where no '<' is followed by the second and third
      characters of `pat`. */
  lemma {:induction false} OccNone(s: string, pat: string)
    requires |pat| >= 3 && pat[0] == '<'
    requires forall k :: 0 <= k < |s| - 2 && s[k] == '<' ==> s[k + 1] != pat[1] || s[k + 2] != pat[2]
    ensures Occurrences(s, pat) == 0
    decreases |s|
  {
    if |s| >= |pat| {
      assert !Prefix(pat, s) by {
        if s[0] == pat[0] && s[1] == pat[1] {
          assert s[2] != pat[2];
          assert Prefix(pat, s) ==> Prefix(pat[1..], s[1..]);
          assert Prefix(pat[1..], s[1..]) ==> Prefix(pat[1..][1..], s[1..][1..]);
          assert pat[1..][1..][0] == pat[2] && s[1..][1..][0] == s[2];
        } else if s[0] == pat[0] {
          assert pat[1..][0] != s[1..][0];
        }
      }
      assert forall k :: 0 <= k < |s[1..]| ==> s[1..][k] == s[k + 1];
      OccNone(s[1..], pat);
    }
  }

  lemma RowOpen()
    ensures Occurrences(RowStart, "<tr>") == 1 && NoLtTail(RowStart, 3)
  {
    var t := RowStart[1..];
    assert forall k :: 0 <= k < |t| ==> t[k] == RowStart[k + 1];
    OccNone(t, "<tr>");
    assert Prefix("<tr>", RowStart) by { PrefixIsPrefix("<tr>", RowStart); }
  }

  lemma RowMiddle()
    ensures Occurrences(CellSep, "<tr>") == 0 && NoLtTail(CellSep, 3)
  {
    OccNone(CellSep, "<tr>");
  }

  lemma RowClose()
    ensures Occurrences(RowEnd, "<tr>") == 0 && NoLtTail(RowEnd, 3)
  {
    OccNone(RowEnd, "<tr>");
  }

  /** A row whose header and cell hold no markup opens exactly one `<tr>`. */
  lemma RowTags(h: string, c: string)
    requires NoLt(h) && NoLt(c)
    ensures Occurrences(TableRow(h, c), "<tr>") == 1
    ensures NoLtTail(TableRow(h, c), 3) && |TableRow(h, c)| >= 3
  {
    RowOpen();
    RowMiddle();
    RowClose();
    OccInterleaved(RowStart, h, CellSep, c, RowEnd, "<tr>");
  }

  /** Joining pieces that each hold one tag gives as many tags as pieces. */
  lemma {:induction false} OccJoin(parts: seq<string>, pat: string)
    requires pat != [] && pat[0] == '<'
    requires forall i :: 0 <= i < |parts| ==>
      Occurrences(parts[i], pat) == 1 && NoLtTail(parts[i], |pat| - 1) && |parts[i]| >= |pat| - 1
    ensures Occurrences(Join(parts, ""), pat) == |parts|
    ensures parts != [] ==> NoLtTail(Join(parts, ""), |pat| - 1)
    decreases |parts|
  {
    if |parts| > 1 {
      OccJoin(parts[1..], pat);
      assert Join(parts, "") == parts[0] + Join(parts[1..], "");
      OccConcat(parts[0], Join(parts[1..], ""), pat);
      NoLtTailSuffix(parts[0], Join(parts[1..], ""), |pat| - 1);
    }
  }

  const LiTag: string := "<li>"
  const StrongTag: string := "<strong>"
  const ItemOpen: string := LiTag + StrongTag
  const ItemMid: string := ":</strong> "
  const ItemClose: string := "</li>"

  /** One line of a narrative list: a bold caption, then the text. */
  function ListItem(caption: string, text: string): string {
    ItemOpen + caption + ItemMid + text + ItemClose
  }

  /** A list line holds exactly one `<li>` and ends without '<'. */
  predicate ListLine(line: string) {
    Occurrences(line, "<li>") == 1 && NoLtTail(line, 3) && |line| >= 3
  }

  predicate ListLines(lines: seq<string>) {
    forall k :: 0 <= k < |lines| ==> ListLine(lines[k])
  }

  lemma ListLinesConcat(a: seq<string>, b: seq<string>)
    requires ListLines(a) && ListLines(b)
    ensures ListLines(a + b)
  {
    assert forall k :: |a| <= k < |a + b| ==> (a + b)[k] == b[k - |a|];
  }

  lemma ItemOpenTags()
    ensures Occurrences(ItemOpen, "<li>") == 1 && NoLtTail(ItemOpen, 3)
  {
    assert Prefix("<li>", LiTag) by { PrefixIsPrefix("<li>", LiTag); }
    assert Occurrences(LiTag, "<li>") == 1 by {
      assert Occurrences(LiTag[1..], "<li>") == 0;
    }
    OccNone(StrongTag, "<li>");
    OccConcat(LiTag, StrongTag, "<li>");
    NoLtTailSuffix(LiTag, StrongTag, 3);
  }

  lemma ItemMidTags()
    ensures Occurrences(ItemMid, "<li>") == 0 && NoLtTail(ItemMid, 3) && |ItemMid| >= 3
  {
    OccNone(ItemMid, "<li>");
  }

  lemma ItemCloseTags()
    ensures Occurrences(ItemClose, "<li>") == 0 && NoLtTail(ItemClose, 3) && |ItemClose| >= 3
  {
    OccNone(ItemClose, "<li>");
  }

  /** A list line whose caption and text hold no markup opens exactly one
      `<li>`. */
  lemma ListItemTags(caption: string, text: string)
    requires NoLt(caption) && NoLt(text)
    ensures ListLine(ListItem(caption, text))
  {
    ItemOpenTags();
    ItemMidTags();
    ItemCloseTags();
    OccInterleaved(ItemOpen, caption, ItemMid, text, ItemClose, "<li>");
  }
}
