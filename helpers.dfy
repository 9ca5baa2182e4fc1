/** The library helpers of the launcher pages (`src/lib/helpers.js`): which base
    the form prepopulates from, how a share-link value is encoded, which
    modifier extensions a Questionnaire uses, and the patient and questionnaire
    summaries shown in search results. */
module Helpers {
  import opened Common
  import opened Fhir
  import opened Json
  import opened UriEncoding

  // ---------------------------------------------------------------------------
  // getEffectivePrepopBase

  /** `(prepopBase || fhirBase || '').trim() || null`. */
  function EffectivePrepopBase(prepopBase: Option<string>, fhirBase: Option<string>): (r: Option<string>)
    ensures r.Some? ==> r.value != "" && !IsJsWhitespace(r.value[0]) && !IsJsWhitespace(r.value[|r.value| - 1])
    ensures Truthy(prepopBase) ==> (r.Some? <==> !AllWhitespace(prepopBase.value))
    ensures !Truthy(prepopBase) && !Truthy(fhirBase) ==> r.None?
  {
    var t := Trim(Or(prepopBase, OrEmpty(fhirBase)));
    TrimEnds(Or(prepopBase, OrEmpty(fhirBase)));
    TrimEmpty(Or(prepopBase, OrEmpty(fhirBase)));
    if t == "" then None else Some(t)
  }

  /** A base written with surrounding whitespace is used without it, and the
      prepopulation base wins over the FHIR base whenever it is set, even when
      it holds only whitespace. */
  lemma EffectivePrepopBaseChoice(pre: string, base: string, suf: string, fhirBase: Option<string>)
    requires AllWhitespace(pre) && AllWhitespace(suf)
    requires base != "" && !IsJsWhitespace(base[0]) && !IsJsWhitespace(base[|base| - 1])
    ensures EffectivePrepopBase(Some(pre + base + suf), fhirBase) == Some(base)
    ensures EffectivePrepopBase(None, Some(pre + base + suf)) == Some(base)
    ensures EffectivePrepopBase(Some(""), Some(pre + base + suf)) == Some(base)
    ensures pre != "" ==> EffectivePrepopBase(Some(pre), fhirBase) == None
  {
    var t := pre + base + suf;
    TrimPadded(pre, base, suf);
    assert Or(Some(t), OrEmpty(fhirBase)) == t;
    assert Or(None, OrEmpty(Some(t))) == t;
    assert Or(Some(""), OrEmpty(Some(t))) == t;
    if pre != "" {
      TrimPadded(pre, "", "");
      assert pre + "" + "" == pre;
    }
  }

  // ---------------------------------------------------------------------------
  // encodeForQueryPreservingSpecials

  /** Two characters are equal ignoring ASCII case. */
  predicate SameIgnoringCase(a: char, b: char) {
    LowerChar(a) == LowerChar(b)
  }

  /** `s.replace(/pat/gi, rep)` for a literal three-character pattern (all the
      patterns used here are `%XY`): every occurrence, leftmost first and without
      overlaps, compared ignoring ASCII case. */
  function ReplaceAllIgnoringCase(s: string, pat: string, rep: string): string
    requires |pat| == 3
    decreases |s|
  {
    if |s| < 3 then s
    else if SameIgnoringCase(s[0], pat[0]) && SameIgnoringCase(s[1], pat[1]) && SameIgnoringCase(s[2], pat[2]) then
      rep + ReplaceAllIgnoringCase(s[3..], pat, rep)
    else [s[0]] + ReplaceAllIgnoringCase(s[1..], pat, rep)
  }

  /** `encodeURIComponent(val)` with `%3A`, `%2F` and `%7C` turned back into
      `:`, `/` and `|`. */
  function EncodeForQueryPreservingSpecials(s: string): string {
    var e := EncodeURIComponent(s);
    var e1 := ReplaceAllIgnoringCase(e, "%3A", ":");
    var e2 := ReplaceAllIgnoringCase(e1, "%2F", "/");
    ReplaceAllIgnoringCase(e2, "%7C", "|")
  }

  predicate Special(c: char) {
    c == ':' || c == '/' || c == '|'
  }

  /** One character encoded, except that the characters of `keep` are left alone. */
  function KeepChar(c: char, keep: set<char>): string {
    if c in keep then [c] else EncodeChar(c)
  }

  /** `encodeURIComponent` with the characters of `keep` left alone. */
  function Keeping(s: string, keep: set<char>): string {
    if s == [] then "" else KeepChar(s[0], keep) + Keeping(s[1..], keep)
  }

  lemma {:induction false} KeepingNothing(s: string)
    ensures Keeping(s, {}) == EncodeURIComponent(s)
  {
    if s != [] {
      KeepingNothing(s[1..]);
    }
  }

  /** A character other than '%' never starts the pattern. */
  lemma ReplaceSkip(c: char, rest: string, pat: string, rep: string)
    requires |pat| == 3 && pat[0] == '%' && c != '%'
    ensures ReplaceAllIgnoringCase([c] + rest, pat, rep) == [c] + ReplaceAllIgnoringCase(rest, pat, rep)
  {
    var s := [c] + rest;
    assert s[0] == c && s[1..] == rest;
  }

  lemma HexLowerDistinct(d1: nat, d2: nat)
    requires d1 < 16 && d2 < 16 && d1 != d2
    ensures LowerChar(Hex(d1)) != LowerChar(Hex(d2))
  {
  }

  /** The encodings of two different octets differ even ignoring case. */
  lemma PercentByteDistinct(b: nat, x: nat)
    requires b < 256 && x < 256 && b != x
    ensures !(SameIgnoringCase(PercentByte(b)[1], PercentByte(x)[1]) && SameIgnoringCase(PercentByte(b)[2], PercentByte(x)[2]))
  {
    if b / 16 != x / 16 {
      HexLowerDistinct(b / 16, x / 16);
    } else {
      HexLowerDistinct(b % 16, x % 16);
    }
  }

  /** The encoding of `x` itself is replaced. */
  lemma ReplaceByteSame(rest: string, x: char)
    requires x as int < 128
    ensures ReplaceAllIgnoringCase(PercentByte(x as int) + rest, PercentByte(x as int), [x])
      == [x] + ReplaceAllIgnoringCase(rest, PercentByte(x as int), [x])
  {
    var s := PercentByte(x as int) + rest;
    assert s[..3] == PercentByte(x as int) && s[3..] == rest;
  }

  /** The encoding of any other octet is kept. */
  lemma ReplaceByteOther(b: nat, rest: string, x: char)
    requires b < 256 && x as int < 128 && b != x as int
    ensures ReplaceAllIgnoringCase(PercentByte(b) + rest, PercentByte(x as int), [x])
      == PercentByte(b) + ReplaceAllIgnoringCase(rest, PercentByte(x as int), [x])
  {
    PercentByteDistinct(b, x as int);
    SkipThree('%', Hex(b / 16), Hex(b % 16), rest, PercentByte(x as int), [x]);
  }

  /** Three characters that do not match the pattern, the last two not '%',
      are kept as they are. */
  lemma SkipThree(c0: char, c1: char, c2: char, rest: string, pat: string, rep: string)
    requires |pat| == 3 && pat[0] == '%' && c1 != '%' && c2 != '%'
    requires !(SameIgnoringCase(c1, pat[1]) && SameIgnoringCase(c2, pat[2]))
    ensures ReplaceAllIgnoringCase([c0, c1, c2] + rest, pat, rep) == [c0, c1, c2] + ReplaceAllIgnoringCase(rest, pat, rep)
  {
    var s := [c0, c1, c2] + rest;
    assert s[0] == c0 && s[1] == c1 && s[2] == c2;
    assert s[1..] == [c1] + ([c2] + rest);
    ReplaceSkip(c1, [c2] + rest, pat, rep);
    ReplaceSkip(c2, rest, pat, rep);
    assert [c0] + ([c1] + ([c2] + ReplaceAllIgnoringCase(rest, pat, rep))) == [c0, c1, c2] + ReplaceAllIgnoringCase(rest, pat, rep);
  }

  lemma ReplaceByte(b: nat, rest: string, x: char)
    requires b < 256 && x as int < 128
    ensures ReplaceAllIgnoringCase(PercentByte(b) + rest, PercentByte(x as int), [x])
      == (if b == x as int then [x] else PercentByte(b)) + ReplaceAllIgnoringCase(rest, PercentByte(x as int), [x])
  {
    if b == x as int {
      ReplaceByteSame(rest, x);
    } else {
      ReplaceByteOther(b, rest, x);
    }
  }

  lemma {:induction false} ReplaceBytes(bs: seq<nat>, rest: string, x: char, pat: string)
    requires forall k :: 0 <= k < |bs| ==> bs[k] < 256 && bs[k] != x as int
    requires x as int < 128 && pat == PercentByte(x as int)
    ensures ReplaceAllIgnoringCase(PercentBytes(bs) + rest, pat, [x])
      == PercentBytes(bs) + ReplaceAllIgnoringCase(rest, pat, [x])
  {
    if bs == [] {
      assert PercentBytes(bs) + rest == rest;
    } else {
      var head, more := PercentByte(bs[0]), PercentBytes(bs[1..]);
      assert PercentBytes(bs) == head + more;
      ConcatAssoc(head, more, rest);
      ReplaceByte(bs[0], more + rest, x);
      ReplaceBytes(bs[1..], rest, x, pat);
      ConcatAssoc(head, more, ReplaceAllIgnoringCase(rest, pat, [x]));
    }
  }

  /** One pass of the replacement turns the encoding of `x` back into `x` and
      leaves every other character's encoding alone. */
  lemma ChunkStep(c: char, rest: string, keep: set<char>, x: char)
    requires forall k :: k in keep ==> Special(k)
    requires Special(x)
    ensures ReplaceAllIgnoringCase(KeepChar(c, keep) + rest, PercentByte(x as int), [x])
      == KeepChar(c, keep + {x}) + ReplaceAllIgnoringCase(rest, PercentByte(x as int), [x])
  {
    var pat := PercentByte(x as int);
    if c in keep || Unreserved(c) {
      ReplaceSkip(c, rest, pat, [x]);
    } else if c == x {
      assert KeepChar(c, keep) == PercentByte(x as int) + "";
      ReplaceByte(x as int, rest, x);
    } else {
      ReplaceBytes(Utf8(c), rest, x, pat);
    }
  }

  lemma {:induction false} PassStep(s: string, keep: set<char>, x: char)
    requires forall k :: k in keep ==> Special(k)
    requires Special(x)
    ensures ReplaceAllIgnoringCase(Keeping(s, keep), PercentByte(x as int), [x]) == Keeping(s, keep + {x})
  {
    if s != [] {
      ChunkStep(s[0], Keeping(s[1..], keep), keep, x);
      PassStep(s[1..], keep, x);
    }
  }

  /** The three patterns are the encodings of the three kept characters. */
  lemma SpecialEscapes()
    ensures PercentByte(':' as int) == "%3A"
    ensures PercentByte('/' as int) == "%2F"
    ensures PercentByte('|' as int) == "%7C"
  {
  }

  /** The three replacements give exactly the percent-encoding in which ':',
      '/' and '|' are written as themselves. */
  lemma EncodeForQuerySpec(s: string)
    ensures EncodeForQueryPreservingSpecials(s) == Keeping(s, {':', '/', '|'})
  {
    KeepingNothing(s);
    SpecialEscapes();
    PassStep(s, {}, ':');
    assert {} + {':'} == {':'};
    PassStep(s, {':'}, '/');
    assert {':'} + {'/'} == {':', '/'};
    PassStep(s, {':', '/'}, '|');
    assert {':', '/'} + {'|'} == {':', '/', '|'};
  }

  /** The characters of the output: unreserved ones, the three kept ones and '%'. */
  predicate QueryChar(c: char) {
    Unreserved(c) || Special(c) || c == '%'
  }

  predicate QueryText(t: string) {
    forall k :: 0 <= k < |t| ==> QueryChar(t[k])
  }

  lemma QueryTextConcat(a: string, b: string)
    requires QueryText(a) && QueryText(b)
    ensures QueryText(a + b)
  {
    assert forall k :: |a| <= k < |a + b| ==> (a + b)[k] == b[k - |a|];
  }

  lemma {:induction false} PercentBytesChars(bs: seq<nat>)
    requires forall k :: 0 <= k < |bs| ==> bs[k] < 256
    ensures QueryText(PercentBytes(bs))
  {
    if bs != [] {
      PercentBytesChars(bs[1..]);
      QueryTextConcat(PercentByte(bs[0]), PercentBytes(bs[1..]));
    }
  }

  lemma {:induction false} KeepingChars(s: string, keep: set<char>)
    requires forall c :: c in keep ==> Special(c)
    ensures QueryText(Keeping(s, keep))
  {
    if s != [] {
      KeepingChars(s[1..], keep);
      if !(s[0] in keep || Unreserved(s[0])) {
        PercentBytesChars(Utf8(s[0]));
      }
      QueryTextConcat(KeepChar(s[0], keep), Keeping(s[1..], keep));
    }
  }

  /** The separators of a query string are not query characters. */
  lemma QueryTextSeparators(t: string)
    requires QueryText(t)
    ensures '&' !in t && '?' !in t && '=' !in t && '#' !in t
  {
  }

  /** A query value encoded this way cannot end the parameter or start another:
      it holds no raw '&', '?', '=' or '#'. */
  lemma EncodeForQuerySafe(s: string)
    ensures QueryText(EncodeForQueryPreservingSpecials(s))
    ensures var t := EncodeForQueryPreservingSpecials(s);
      '&' !in t && '?' !in t && '=' !in t && '#' !in t
  {
    EncodeForQuerySpec(s);
    KeepingChars(s, {':', '/', '|'});
    QueryTextSeparators(EncodeForQueryPreservingSpecials(s));
  }

  /** The encoding works character by character: encoding a concatenation is
      concatenating the encodings. */
  lemma EncodeForQueryConcat(a: string, b: string)
    ensures EncodeForQueryPreservingSpecials(a + b)
      == EncodeForQueryPreservingSpecials(a) + EncodeForQueryPreservingSpecials(b)
  {
    EncodeForQuerySpec(a + b);
    EncodeForQuerySpec(a);
    EncodeForQuerySpec(b);
    KeepingConcat(a, b, {':', '/', '|'});
  }

  lemma KeepingQuestionMark()
    ensures Keeping("?", {':', '/', '|'}) == "%3F"
  {
    assert Utf8('?') == ['?' as int];
    assert PercentBytes(['?' as int]) == PercentByte('?' as int) + "";
    assert PercentByte('?' as int) == "%3F";
  }

  /** A `?` inside the value is still encoded, so it cannot start a query. */
  lemma EncodeForQueryQuestionMark(a: string, b: string)
    ensures EncodeForQueryPreservingSpecials(a + "?" + b)
      == EncodeForQueryPreservingSpecials(a) + "%3F" + EncodeForQueryPreservingSpecials(b)
  {
    EncodeForQueryConcat(a + "?", b);
    EncodeForQueryConcat(a, "?");
    EncodeForQuerySpec("?");
    KeepingQuestionMark();
  }

  /** A value made only of unreserved characters, `:`, `/` and `|` (a plain URL
      or a canonical with version) comes out unchanged. */
  lemma EncodeForQueryPlain(a: string)
    requires forall k :: 0 <= k < |a| ==> Unreserved(a[k]) || Special(a[k])
    ensures EncodeForQueryPreservingSpecials(a) == a
  {
    EncodeForQuerySpec(a);
    KeepingPlain(a, {':', '/', '|'});
  }

  lemma {:induction false} KeepingConcat(a: string, b: string, keep: set<char>)
    ensures Keeping(a + b, keep) == Keeping(a, keep) + Keeping(b, keep)
  {
    if a == [] {
      assert a + b == b;
    } else {
      assert (a + b)[0] == a[0] && (a + b)[1..] == a[1..] + b;
      KeepingConcat(a[1..], b, keep);
    }
  }

  /** Unreserved and kept characters come out as they are. */
  lemma {:induction false} KeepingPlain(s: string, keep: set<char>)
    requires forall k :: 0 <= k < |s| ==> s[k] in keep || Unreserved(s[k])
    ensures Keeping(s, keep) == s
  {
    if s != [] {
      KeepingPlain(s[1..], keep);
    }
  }

  // ---------------------------------------------------------------------------
  // collectModifierExtensionUrls

  /** The non-empty string `url`s of the entries of a `modifierExtension` array. */
  function EntryUrls(exts: seq<Json>): (r: seq<string>)
    ensures forall k :: 0 <= k < |r| ==> r[k] != ""
  {
    if exts == [] then []
    else
      (match Get(exts[0], "url") case JStr(u) => (if u != "" then [u] else []) case _ => [])
      + EntryUrls(exts[1..])
  }

  /** The URLs an object lists in its own `modifierExtension` array. */
  function OwnUrls(j: Json): (r: seq<string>)
    ensures forall k :: 0 <= k < |r| ==> r[k] != ""
  {
    match Get(j, "modifierExtension") case JArr(exts) => EntryUrls(exts) case _ => []
  }

  /** The modifier-extension URLs met by the walk, in the order it meets them and
      with repetitions: an object's own ones first, then those under each of its
      properties in key order, except under `modifierExtension` itself. */
  function ModifierUrls(j: Json): (r: seq<string>)
    ensures forall k :: 0 <= k < |r| ==> r[k] != ""
    decreases j
  {
    match j
    case JArr(items) => ItemsUrls(items)
    case JObj(fields) => OwnUrls(j) + FieldsUrls(fields)
    case _ => []
  }

  function ItemsUrls(items: seq<Json>): (r: seq<string>)
    ensures forall k :: 0 <= k < |r| ==> r[k] != ""
    decreases items
  {
    if items == [] then [] else ModifierUrls(items[0]) + ItemsUrls(items[1..])
  }

  function FieldsUrls(fs: seq<Field>): (r: seq<string>)
    ensures forall k :: 0 <= k < |r| ==> r[k] != ""
    decreases fs
  {
    if fs == [] then []
    else (if fs[0].key == "modifierExtension" then [] else ModifierUrls(fs[0].value)) + FieldsUrls(fs[1..])
  }

  lemma ItemsUrlsSnoc(items: seq<Json>, i: nat)
    requires i < |items|
    ensures ItemsUrls(items[..i + 1]) == ItemsUrls(items[..i]) + ModifierUrls(items[i])
  {
    ItemsUrlsConcat(items[..i], [items[i]]);
    assert items[..i + 1] == items[..i] + [items[i]];
    assert ItemsUrls([items[i]]) == ModifierUrls(items[i]) + ItemsUrls([]);
  }

  lemma {:induction false} ItemsUrlsConcat(a: seq<Json>, b: seq<Json>)
    ensures ItemsUrls(a + b) == ItemsUrls(a) + ItemsUrls(b)
  {
    if a == [] {
      assert a + b == b;
    } else {
      assert (a + b)[0] == a[0] && (a + b)[1..] == a[1..] + b;
      ItemsUrlsConcat(a[1..], b);
    }
  }

  lemma FieldsUrlsSnoc(fs: seq<Field>, i: nat)
    requires i < |fs|
    ensures FieldsUrls(fs[..i + 1]) == FieldsUrls(fs[..i])
      + (if fs[i].key == "modifierExtension" then [] else ModifierUrls(fs[i].value))
  {
    FieldsUrlsConcat(fs[..i], [fs[i]]);
    assert fs[..i + 1] == fs[..i] + [fs[i]];
  }

  lemma {:induction false} FieldsUrlsConcat(a: seq<Field>, b: seq<Field>)
    ensures FieldsUrls(a + b) == FieldsUrls(a) + FieldsUrls(b)
  {
    if a == [] {
      assert a + b == b;
    } else {
      assert (a + b)[0] == a[0] && (a + b)[1..] == a[1..] + b;
      FieldsUrlsConcat(a[1..], b);
    }
  }

  lemma EntryUrlsSnoc(exts: seq<Json>, i: nat)
    requires i < |exts|
    ensures EntryUrls(exts[..i + 1]) == EntryUrls(exts[..i]) + EntryUrls([exts[i]])
  {
    EntryUrlsConcat(exts[..i], [exts[i]]);
    assert exts[..i + 1] == exts[..i] + [exts[i]];
  }

  lemma {:induction false} EntryUrlsConcat(a: seq<Json>, b: seq<Json>)
    ensures EntryUrls(a + b) == EntryUrls(a) + EntryUrls(b)
  {
    if a == [] {
      assert a + b == b;
    } else {
      assert (a + b)[0] == a[0] && (a + b)[1..] == a[1..] + b;
      EntryUrlsConcat(a[1..], b);
    }
  }

  /** `collectModifierExtensionUrls(obj, acc)`: the set is kept as the list of its
      members in insertion order, which is the order `Array.from` reports. */
  method CollectModifierExtensionUrls(obj: Json, acc: seq<string>) returns (r: seq<string>)
    ensures r == AddAll(acc, ModifierUrls(obj))
    decreases obj, 1
  {
    r := acc;
    if Falsy(obj) {
      return;
    }
    match obj {
      case JArr(items) =>
        r := CollectItems(items, acc);
      case JObj(fields) =>
        r := CollectOwn(obj, acc);
        r := CollectFields(fields, r);
        AddAllConcat(acc, OwnUrls(obj), FieldsUrls(fields));
      case _ =>
    }
  }

  /** The loop over the elements of an array. */
  method CollectItems(items: seq<Json>, acc: seq<string>) returns (r: seq<string>)
    ensures r == AddAll(acc, ItemsUrls(items))
    decreases items, 0
  {
    r := acc;
    var i := 0;
    while i < |items|
      invariant 0 <= i <= |items|
      invariant r == AddAll(acc, ItemsUrls(items[..i]))
    {
      r := CollectModifierExtensionUrls(items[i], r);
      ItemsUrlsSnoc(items, i);
      AddAllConcat(acc, ItemsUrls(items[..i]), ModifierUrls(items[i]));
      i := i + 1;
    }
    assert items[..|items|] == items;
  }

  /** One round of the loop over an object's own `modifierExtension` array adds
      the entry's non-empty url, if it has one. */
  lemma CollectOwnStep(acc: seq<string>, exts: seq<Json>, i: nat, r: seq<string>)
    requires i < |exts| && r == AddAll(acc, EntryUrls(exts[..i]))
    ensures var url := Get(exts[i], "url");
      AddAll(acc, EntryUrls(exts[..i + 1]))
        == if !Falsy(exts[i]) && url.JStr? && url.s != "" then AddOnce(r, url.s) else r
  {
    EntryUrlsSnoc(exts, i);
    AddAllConcat(acc, EntryUrls(exts[..i]), EntryUrls([exts[i]]));
    OneEntryUrls(exts[i]);
    var url := Get(exts[i], "url");
    if !Falsy(exts[i]) && url.JStr? && url.s != "" {
      AddAllSingle(r, url.s);
    }
  }

  lemma OneEntryUrls(ext: Json)
    ensures var url := Get(ext, "url");
      EntryUrls([ext]) == if !Falsy(ext) && url.JStr? && url.s != "" then [url.s] else []
  {
    assert [ext][1..] == [];
  }

  /** The loop over an object's own `modifierExtension` array. */
  method CollectOwn(obj: Json, acc: seq<string>) returns (r: seq<string>)
    ensures r == AddAll(acc, OwnUrls(obj))
  {
    r := acc;
    var own := Get(obj, "modifierExtension");
    if own.JArr? {
      var exts := own.items;
      var i := 0;
      while i < |exts|
        invariant 0 <= i <= |exts|
        invariant r == AddAll(acc, EntryUrls(exts[..i]))
      {
        var ext := exts[i];
        var url := Get(ext, "url");
        CollectOwnStep(acc, exts, i, r);
        if !Falsy(ext) && url.JStr? && url.s != "" {
          r := AddOnce(r, url.s);
        }
        i := i + 1;
      }
      assert exts[..|exts|] == exts;
    }
  }

  /** The loop over an object's properties, skipping `modifierExtension`. */
  method CollectFields(fields: seq<Field>, acc: seq<string>) returns (r: seq<string>)
    ensures r == AddAll(acc, FieldsUrls(fields))
    decreases fields, 0
  {
    r := acc;
    var i := 0;
    while i < |fields|
      invariant 0 <= i <= |fields|
      invariant r == AddAll(acc, FieldsUrls(fields[..i]))
    {
      if fields[i].key != "modifierExtension" {
        r := CollectModifierExtensionUrls(fields[i].value, r);
      }
      FieldsUrlsSnoc(fields, i);
      AddAllConcat(acc, FieldsUrls(fields[..i]),
        if fields[i].key == "modifierExtension" then [] else ModifierUrls(fields[i].value));
      i := i + 1;
    }
    assert fields[..|fields|] == fields;
  }

  /** Starting from an empty set, the result holds every modifier-extension URL
      of the value, only those, each once, and all of them are non-empty; when
      no URL repeats it lists them in the order of the walk. */
  lemma CollectSpec(obj: Json)
    ensures NoDuplicates(AddAll([], ModifierUrls(obj)))
    ensures forall u :: u in AddAll([], ModifierUrls(obj)) <==> u in ModifierUrls(obj)
    ensures forall u :: u in AddAll([], ModifierUrls(obj)) ==> u != ""
    ensures NoDuplicates(ModifierUrls(obj)) ==> AddAll([], ModifierUrls(obj)) == ModifierUrls(obj)
  {
    AddAllSpec([], ModifierUrls(obj));
    assert [] + ModifierUrls(obj) == ModifierUrls(obj);
  }

  /** Nothing under a `modifierExtension` key is walked, at any depth and
      whatever it holds: an object's URLs are its own entries' ones followed by
      those under its other properties. */
  lemma ModifierValueNotWalked(pre: seq<Field>, v: Json, post: seq<Field>)
    ensures ModifierUrls(JObj(pre + [Field("modifierExtension", v)] + post))
      == OwnUrls(JObj(pre + [Field("modifierExtension", v)] + post)) + FieldsUrls(pre + post)
  {
    FieldsSkipModifier(pre, v, post);
  }

  lemma FieldsSkipModifier(pre: seq<Field>, v: Json, post: seq<Field>)
    ensures FieldsUrls(pre + [Field("modifierExtension", v)] + post) == FieldsUrls(pre + post)
  {
    var f := [Field("modifierExtension", v)];
    FieldsUrlsConcat(pre + f, post);
    FieldsUrlsConcat(pre, f);
    FieldsUrlsConcat(pre, post);
    assert FieldsUrls(f) == [] by {
      assert f[0].key == "modifierExtension" && f[1..] == [];
    }
  }

  /** An object's own URLs are the `url`s of the entries of its first
      `modifierExtension` property, when that holds an array. */
  lemma OwnUrlsOfFirst(pre: seq<Field>, exts: seq<Json>, post: seq<Field>)
    requires forall k :: 0 <= k < |pre| ==> pre[k].key != "modifierExtension"
    ensures OwnUrls(JObj(pre + [Field("modifierExtension", JArr(exts))] + post)) == EntryUrls(exts)
  {
    var rest := [Field("modifierExtension", JArr(exts))] + post;
    assert pre + [Field("modifierExtension", JArr(exts))] + post == pre + rest;
    LookupSkips(pre, rest, "modifierExtension");
    assert Lookup(rest, "modifierExtension") == Some(JArr(exts));
  }

  lemma {:induction false} LookupSkips(pre: seq<Field>, rest: seq<Field>, key: string)
    requires forall k :: 0 <= k < |pre| ==> pre[k].key != key
    ensures Lookup(pre + rest, key) == Lookup(rest, key)
  {
    if pre != [] {
      assert (pre + rest)[0] == pre[0] && (pre + rest)[1..] == pre[1..] + rest;
      LookupSkips(pre[1..], rest, key);
    } else {
      assert pre + rest == rest;
    }
  }

  /** The walk does not look inside a `modifierExtension` array for further
      ones: a modifier extension of a modifier extension is not collected. */
  lemma NestedModifierNotCollected(a: string, b: string)
    requires a != "" && b != ""
    ensures ModifierUrls(JObj([Field("modifierExtension", JArr([
      JObj([Field("url", JStr(a)), Field("modifierExtension", JArr([JObj([Field("url", JStr(b))])]))])]))]))
      == [a]
  {
    var inner := JObj([Field("url", JStr(a)), Field("modifierExtension", JArr([JObj([Field("url", JStr(b))])]))]);
    var fs := [Field("modifierExtension", JArr([inner]))];
    assert Get(inner, "url") == JStr(a);
    assert EntryUrls([inner]) == [a] by {
      assert [inner][1..] == [];
    }
    assert FieldsUrls(fs) == [] by {
      assert fs[1..] == [];
    }
  }

  /** Modifier extensions of items nested at different depths are found, in
      document order. */
  lemma CollectNestedItems(a: string, b: string)
    requires a != "" && b != ""
    ensures ModifierUrls(JObj([Field("item", JArr([
        JObj([Field("modifierExtension", JArr([JObj([Field("url", JStr(a))])]))]),
        JObj([Field("item", JArr([JObj([Field("modifierExtension", JArr([JObj([Field("url", JStr(b))])]))])]))])]))]))
      == [a, b]
  {
    var ea := JObj([Field("modifierExtension", JArr([JObj([Field("url", JStr(a))])]))]);
    var eb := JObj([Field("modifierExtension", JArr([JObj([Field("url", JStr(b))])]))]);
    var nb := JObj([Field("item", JArr([eb]))]);
    assert ModifierUrls(ea) == [a] by {
      OneModifier(a);
    }
    assert ModifierUrls(eb) == [b] by {
      OneModifier(b);
    }
    assert ModifierUrls(nb) == [b] by {
      OneChild("item", JArr([eb]));
      assert ItemsUrls([eb]) == ModifierUrls(eb) + ItemsUrls([]);
    }
    OneChild("item", JArr([ea, nb]));
    assert ItemsUrls([ea, nb]) == ModifierUrls(ea) + ItemsUrls([nb]);
    assert ItemsUrls([nb]) == ModifierUrls(nb) + ItemsUrls([]);
  }

  lemma OneModifier(u: string)
    requires u != ""
    ensures ModifierUrls(JObj([Field("modifierExtension", JArr([JObj([Field("url", JStr(u))])]))])) == [u]
  {
    var e := JObj([Field("url", JStr(u))]);
    var fs := [Field("modifierExtension", JArr([e]))];
    assert Get(e, "url") == JStr(u);
    assert EntryUrls([e]) == [u] by {
      assert [e][1..] == [];
    }
    assert FieldsUrls(fs) == [] by {
      assert fs[1..] == [];
    }
  }

  lemma OneChild(key: string, v: Json)
    requires key != "modifierExtension"
    ensures ModifierUrls(JObj([Field(key, v)])) == ModifierUrls(v)
  {
    var fs := [Field(key, v)];
    assert Lookup(fs, "modifierExtension") == None;
    assert FieldsUrls(fs) == ModifierUrls(v) + FieldsUrls(fs[1..]);
  }

  // ---------------------------------------------------------------------------
  // Patient and questionnaire summaries

  const NoName: string := "(ohne Name)"
  const NoQuestionnaireTitle: string := "(Questionnaire)"

  /** One name as `getPatientName` writes it: its prefixes, given names and
      family name, empty ones dropped, joined by spaces. */
  function NameLine(n: HumanName): string {
    Join(NonEmpty(n.prefix + n.given + OptionToSeq(n.family)), " ")
  }

  function NameLines(names: seq<HumanName>): (r: seq<string>)
    ensures |r| == |names| && forall k :: 0 <= k < |r| ==> r[k] == NameLine(names[k])
  {
    if names == [] then [] else [NameLine(names[0])] + NameLines(names[1..])
  }

  /** `getPatientName(p)`. */
  function PatientName(p: Option<Patient>): string {
    var lines := NonEmpty(if p.Some? then NameLines(p.value.name) else []);
    if lines != [] then lines[0] else NoName
  }

  /** A name has a line exactly when one of its parts is non-empty. */
  lemma NameLineEmpty(n: HumanName)
    ensures NameLine(n) == "" <==> forall k :: 0 <= k < |n.prefix + n.given + OptionToSeq(n.family)| ==>
      (n.prefix + n.given + OptionToSeq(n.family))[k] == ""
  {
    var parts := n.prefix + n.given + OptionToSeq(n.family);
    NonEmptyHead(parts);
    JoinEmpty(NonEmpty(parts), " ");
  }

  /** The patient's name is the line of its first name that has one; a patient
      without such a name is shown as "(ohne Name)". */
  lemma PatientNameSpec(p: Patient)
    ensures (forall k :: 0 <= k < |p.name| ==> NameLine(p.name[k]) == "") ==> PatientName(Some(p)) == NoName
    ensures (exists k :: 0 <= k < |p.name| && NameLine(p.name[k]) != "") ==>
      exists k :: 0 <= k < |p.name| && PatientName(Some(p)) == NameLine(p.name[k]) != ""
        && forall j :: 0 <= j < k ==> NameLine(p.name[j]) == ""
    ensures PatientName(None) == NoName
  {
    var lines := NameLines(p.name);
    NonEmptyHead(lines);
  }

  /** An identifier as `system|value`. */
  function IdentifierText(i: Identifier): (r: string)
    ensures |r| > 0 && '|' in r
  {
    OrEmpty(i.system) + "|" + OrEmpty(i.value)
  }

  function IdentifierTexts(ids: seq<Identifier>): (r: seq<string>)
    ensures |r| == |ids| && forall k :: 0 <= k < |r| ==> r[k] == IdentifierText(ids[k])
  {
    if ids == [] then [] else [IdentifierText(ids[0])] + IdentifierTexts(ids[1..])
  }

  /** The identifiers, comma-joined; every identifier shows, so there is a text
      exactly when there is an identifier. */
  function IdentifierSummary(ids: seq<Identifier>): (r: Option<string>)
    ensures r.Some? <==> |ids| > 0
    ensures r.Some? ==> r.value == Join(IdentifierTexts(ids), ", ") && r.value != ""
  {
    var idents := NonEmpty(IdentifierTexts(ids));
    NonEmptyKeeps(IdentifierTexts(ids));
    JoinEmpty(idents, ", ");
    if |idents| > 0 then Some(Join(idents, ", ")) else None
  }

  /** The candidate rows of the patient summary, in table order. */
  function PatientFields(p: Option<Patient>): seq<(string, Option<string>)> {
    if p.None? then []
    else
      [("ID", p.value.id), ("Geburtsdatum", p.value.birthDate), ("Geschlecht", p.value.gender),
       ("Identifier", IdentifierSummary(p.value.identifier))]
  }

  /** `if (v) rows.push([key, v])`. */
  method PushIfSet(rows: seq<(string, string)>, key: string, v: Option<string>) returns (r: seq<(string, string)>)
    ensures r == rows + Rows([(key, v)])
  {
    RowOne((key, v));
    r := rows;
    if Truthy(v) {
      r := r + [(key, v.value)];
    }
  }

  /** `patientDetails(p)`: one row per present field, in the order ID,
      Geburtsdatum, Geschlecht, Identifier. */
  method PatientDetails(p: Option<Patient>) returns (rows: seq<(string, string)>)
    ensures rows == Rows(PatientFields(p))
  {
    rows := [];
    if p.None? {
      return;
    }
    var pt := p.value;
    rows := PushIfSet(rows, "ID", pt.id);
    rows := PushIfSet(rows, "Geburtsdatum", pt.birthDate);
    rows := PushIfSet(rows, "Geschlecht", pt.gender);
    rows := PushIfSet(rows, "Identifier", IdentifierSummary(pt.identifier));
    PushedFour(("ID", pt.id), ("Geburtsdatum", pt.birthDate), ("Geschlecht", pt.gender),
      ("Identifier", IdentifierSummary(pt.identifier)));
  }

  /** The rows of one candidate. */
  lemma RowOne(c: (string, Option<string>))
    ensures Rows([c]) == if Truthy(c.1) then [(c.0, c.1.value)] else []
  {
    assert [c][1..] == [];
  }

  /** The rows of four candidates, spelled out. */
  lemma RowsOfFour(c: seq<(string, Option<string>)>)
    requires |c| == 4
    ensures Rows(c) == Rows([c[0]]) + Rows([c[1]]) + Rows([c[2]]) + Rows([c[3]])
    ensures forall k :: 0 <= k < 4 ==> Rows([c[k]]) == if Truthy(c[k].1) then [(c[k].0, c[k].1.value)] else []
  {
    assert c == [c[0]] + [c[1]] + [c[2]] + [c[3]];
    RowsConcat([c[0]] + [c[1]] + [c[2]], [c[3]]);
    RowsConcat([c[0]] + [c[1]], [c[2]]);
    RowsConcat([c[0]], [c[1]]);
    RowOne(c[0]);
    RowOne(c[1]);
    RowOne(c[2]);
    RowOne(c[3]);
  }

  /** Pushing the rows of four candidates one after the other into an empty
      list gives the rows of the four. */
  lemma PushedFour(c0: (string, Option<string>), c1: (string, Option<string>), c2: (string, Option<string>), c3: (string, Option<string>))
    ensures Rows([c0, c1, c2, c3]) == [] + Rows([c0]) + Rows([c1]) + Rows([c2]) + Rows([c3])
  {
    RowsOfFour([c0, c1, c2, c3]);
    assert [] + Rows([c0]) == Rows([c0]);
  }

  /** The same for three candidates. */
  lemma PushedThree(c0: (string, Option<string>), c1: (string, Option<string>), c2: (string, Option<string>))
    ensures Rows([c0, c1, c2]) == [] + Rows([c0]) + Rows([c1]) + Rows([c2])
  {
    RowsOfThree([c0, c1, c2]);
    assert [] + Rows([c0]) == Rows([c0]);
  }

  /** The rows of three candidates, spelled out. */
  lemma RowsOfThree(c: seq<(string, Option<string>)>)
    requires |c| == 3
    ensures Rows(c) == Rows([c[0]]) + Rows([c[1]]) + Rows([c[2]])
    ensures forall k :: 0 <= k < 3 ==> Rows([c[k]]) == if Truthy(c[k].1) then [(c[k].0, c[k].1.value)] else []
  {
    assert c == [c[0]] + [c[1]] + [c[2]];
    RowsConcat([c[0]] + [c[1]], [c[2]]);
    RowsConcat([c[0]], [c[1]]);
    RowOne(c[0]);
    RowOne(c[1]);
    RowOne(c[2]);
  }

  /** The summary shows a field's row exactly when the field is set, with the
      identifiers written `system|value` and comma-joined; the rows keep the
      table order. */
  lemma PatientDetailsSpec(p: Patient)
    ensures ("ID", OrEmpty(p.id)) in Rows(PatientFields(Some(p))) <==> Truthy(p.id)
    ensures ("Geburtsdatum", OrEmpty(p.birthDate)) in Rows(PatientFields(Some(p))) <==> Truthy(p.birthDate)
    ensures ("Geschlecht", OrEmpty(p.gender)) in Rows(PatientFields(Some(p))) <==> Truthy(p.gender)
    ensures ("Identifier", Join(IdentifierTexts(p.identifier), ", ")) in Rows(PatientFields(Some(p)))
      <==> |p.identifier| > 0
    ensures Truthy(p.id) ==> Rows(PatientFields(Some(p)))[0] == ("ID", p.id.value)
    ensures |p.identifier| > 0 ==>
      Rows(PatientFields(Some(p)))[|Rows(PatientFields(Some(p)))| - 1] == ("Identifier", Join(IdentifierTexts(p.identifier), ", "))
  {
    RowsOfFour(PatientFields(Some(p)));
  }

  datatype Questionnaire = Questionnaire(
    id: Option<string>,
    url: Option<string>,
    version: Option<string>,
    name: Option<string>,
    title: Option<string>)

  /** `getQuestionnaireTitle(q)`: the first of title, name and id that is set. */
  function QuestionnaireTitle(q: Option<Questionnaire>): (r: string)
    ensures r != ""
    ensures q.Some? && Truthy(q.value.title) ==> r == q.value.title.value
    ensures q.Some? && !Truthy(q.value.title) && Truthy(q.value.name) ==> r == q.value.name.value
    ensures q.Some? && !Truthy(q.value.title) && !Truthy(q.value.name) && Truthy(q.value.id) ==> r == q.value.id.value
    ensures r == NoQuestionnaireTitle <== q.None? || !(Truthy(q.value.title) || Truthy(q.value.name) || Truthy(q.value.id))
  {
    if q.None? then NoQuestionnaireTitle
    else Or(q.value.title, Or(q.value.name, Or(q.value.id, NoQuestionnaireTitle)))
  }

  function QuestionnaireFields(q: Option<Questionnaire>): seq<(string, Option<string>)> {
    if q.None? then [] else [("ID", q.value.id), ("Version", q.value.version), ("URL", q.value.url)]
  }

  /** `questionnaireDetails(q)`: rows ID, Version and URL for the fields set. */
  method QuestionnaireDetails(q: Option<Questionnaire>) returns (rows: seq<(string, string)>)
    ensures rows == Rows(QuestionnaireFields(q))
  {
    rows := [];
    if q.None? {
      return;
    }
    rows := PushIfSet(rows, "ID", q.value.id);
    rows := PushIfSet(rows, "Version", q.value.version);
    rows := PushIfSet(rows, "URL", q.value.url);
    PushedThree(("ID", q.value.id), ("Version", q.value.version), ("URL", q.value.url));
  }


  /** With all three fields set the keys read ID, Version, URL. */
  lemma QuestionnaireDetailsAll(id: string, version: string, url: string, name: Option<string>, title: Option<string>)
    requires id != "" && version != "" && url != ""
    ensures Rows(QuestionnaireFields(Some(Questionnaire(Some(id), Some(url), Some(version), name, title))))
      == [("ID", id), ("Version", version), ("URL", url)]
  {
    RowsOfThree(QuestionnaireFields(Some(Questionnaire(Some(id), Some(url), Some(version), name, title))));
  }
}
