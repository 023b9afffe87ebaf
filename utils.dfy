/** The micro-parsers of `src/utils.ts`: the `<kind>payload</kind>` tag recogniser, the two
    identifier casings, quote removal, and the `{identifier}` path-token extractor the
    request generator imports next to them. */
module Utils {
  import opened Wrappers
  import opened Text

  // =======================================================================================
  // Tags: /<(.+)>(.+)<\/\1>/
  // =======================================================================================

  /** The text a tag with this kind and payload occupies. */
  function TagText(key: string, value: string): (r: string)
    ensures |r| == 2 * |key| + |value| + 5
  {
    "<" + key + ">" + value + "</" + key + ">"
  }

  /** The regular expression matches at `start` with a key of `k` and a value of `v`
      characters: `<`, the key, `>`, the value, `</`, the same key again, `>` (and `.` never
      matches a line terminator). */
  predicate TagAt(s: string, start: nat, k: nat, v: nat) {
    1 <= k && 1 <= v && start + 2 * k + v + 5 <= |s|
    && s[start] == '<' && s[start + k + 1] == '>'
    && s[start + k + v + 2] == '<' && s[start + k + v + 3] == '/'
    && s[start + 2 * k + v + 4] == '>'
    && s[start + k + v + 4..start + 2 * k + v + 4] == s[start + 1..start + 1 + k]
    && NoLineTerminator(s[start + 1..start + 1 + k])
    && NoLineTerminator(s[start + k + 2..start + k + 2 + v])
  }

  /** A match is exactly the text of a tag whose key and value are its two groups. */
  lemma TagAtText(s: string, start: nat, k: nat, v: nat)
    requires TagAt(s, start, k, v)
    ensures s[start..start + 2 * k + v + 5]
            == TagText(s[start + 1..start + 1 + k], s[start + k + 2..start + k + 2 + v])
  {
    var key := s[start + 1..start + 1 + k];
    var t := TagText(key, s[start + k + 2..start + k + 2 + v]);
    var m := s[start..start + 2 * k + v + 5];
    assert |m| == |t|;
    forall i | 0 <= i < |m|
      ensures m[i] == t[i]
    {
      if k + v + 4 <= i < 2 * k + v + 4 {
        assert t[i] == key[i - (k + v + 4)];
        assert s[start + k + v + 4..start + 2 * k + v + 4][i - (k + v + 4)] == m[i];
      }
    }
  }

  /** Where the parts of a tag's text lie. */
  lemma TagTextParts(key: string, value: string)
    ensures var t, k, v := TagText(key, value), |key|, |value|;
            && t[0] == '<' && t[k + 1] == '>' && t[k + v + 2] == '<' && t[k + v + 3] == '/' && t[2 * k + v + 4] == '>'
            && t[1..1 + k] == key && t[k + 2..k + 2 + v] == value && t[k + v + 4..2 * k + v + 4] == key
  {
    var k, v := |key|, |value|;
    var t := TagText(key, value);
    assert t == "<" + key + ">" + value + "</" + key + ">";
    assert t[1..1 + k] == key;
    assert t[k + 2..k + 2 + v] == value;
    assert t[k + v + 4..2 * k + v + 4] == key;
  }

  /** Text of the form of a tag, with single-line key and value, is a match. */
  lemma TextTagAt(s: string, start: nat, key: string, value: string)
    requires |key| >= 1 && |value| >= 1 && NoLineTerminator(key) && NoLineTerminator(value)
    requires OccursAt(s, TagText(key, value), start)
    ensures TagAt(s, start, |key|, |value|)
    ensures s[start + 1..start + 1 + |key|] == key
    ensures s[start + |key| + 2..start + |key| + 2 + |value|] == value
  {
    TagTextParts(key, value);
    TagSlices(s, start, key, value);
    TagDelimiters(s, start, key, value);
  }

  /** The key, the value and the closing key of a tag's text, in place. */
  lemma TagSlices(s: string, start: nat, key: string, value: string)
    requires OccursAt(s, TagText(key, value), start)
    ensures var k, v := |key|, |value|;
            && s[start + 1..start + 1 + k] == key
            && s[start + k + 2..start + k + 2 + v] == value
            && s[start + k + v + 4..start + 2 * k + v + 4] == key
  {
    var t := TagText(key, value);
    var k, v := |key|, |value|;
    assert s[start..start + |t|] == t;
    TagTextParts(key, value);
    SliceOfSlice(s, start, start + |t|, 1, 1 + k);
    SliceOfSlice(s, start, start + |t|, k + 2, k + 2 + v);
    SliceOfSlice(s, start, start + |t|, k + v + 4, 2 * k + v + 4);
  }

  /** The delimiters of a tag's text, in place. */
  lemma TagDelimiters(s: string, start: nat, key: string, value: string)
    requires OccursAt(s, TagText(key, value), start)
    ensures var k, v := |key|, |value|;
            && s[start] == '<' && s[start + k + 1] == '>'
            && s[start + k + v + 2] == '<' && s[start + k + v + 3] == '/'
            && s[start + 2 * k + v + 4] == '>'
  {
    var t := TagText(key, value);
    var k, v := |key|, |value|;
    assert s[start..start + |t|] == t;
    TagTextParts(key, value);
    assert s[start] == t[0] && s[start + k + 1] == t[k + 1];
    assert s[start + k + v + 2] == t[k + v + 2] && s[start + k + v + 3] == t[k + v + 3];
    assert s[start + 2 * k + v + 4] == t[2 * k + v + 4];
  }

  /** Where the first match lies and how long its two groups are. */
  datatype TagMatch = TagMatch(start: nat, keyLen: nat, valueLen: nat)

  /** The match `exec` reports: the leftmost start, then (greedy `(.+)` backtracking) the
      longest key, then the longest value for that key. */
  ghost predicate IsFirstTag(s: string, m: TagMatch) {
    TagAt(s, m.start, m.keyLen, m.valueLen)
    && (forall j: nat, k: nat, v: nat :: j < m.start ==> !TagAt(s, j, k, v))
    && (forall k: nat, v: nat :: m.keyLen < k ==> !TagAt(s, m.start, k, v))
    && (forall v: nat :: m.valueLen < v ==> !TagAt(s, m.start, m.keyLen, v))
  }

  /** Backtracking over the value length, longest first. */
  function ScanValue(s: string, start: nat, k: nat, v: nat): (r: Option<nat>)
    decreases v
    ensures r.Some? ==> 1 <= r.value <= v && TagAt(s, start, k, r.value)
    ensures r.Some? ==> forall w: nat :: r.value < w <= v ==> !TagAt(s, start, k, w)
    ensures r.None? ==> forall w: nat :: w <= v ==> !TagAt(s, start, k, w)
  {
    if v == 0 then None
    else if TagAt(s, start, k, v) then Some(v)
    else ScanValue(s, start, k, v - 1)
  }

  /** Backtracking over the key length, longest first, each with its longest value. */
  function ScanKey(s: string, start: nat, k: nat): (r: Option<(nat, nat)>)
    decreases k
    ensures r.Some? ==> r.value.0 <= k && TagAt(s, start, r.value.0, r.value.1)
    ensures r.Some? ==> forall k2: nat, w: nat :: r.value.0 < k2 <= k ==> !TagAt(s, start, k2, w)
    ensures r.Some? ==> forall w: nat :: r.value.1 < w ==> !TagAt(s, start, r.value.0, w)
    ensures r.None? ==> forall k2: nat, w: nat :: k2 <= k ==> !TagAt(s, start, k2, w)
  {
    if k == 0 then None
    else
      match ScanValue(s, start, k, |s|)
      case Some(v) => Some((k, v))
      case None => ScanKey(s, start, k - 1)
  }

  /** Trying each start position from the left, as `exec` does. */
  function ScanStart(s: string, start: nat): (r: Option<TagMatch>)
    decreases |s| - start
    ensures r.Some? ==> start <= r.value.start && IsFirstTagFrom(s, start, r.value)
    ensures r.None? ==> forall j: nat, k: nat, v: nat :: start <= j ==> !TagAt(s, j, k, v)
  {
    if start >= |s| then None
    else
      match ScanKey(s, start, |s|)
      case Some((k, v)) => Some(TagMatch(start, k, v))
      case None => ScanStart(s, start + 1)
  }

  /** `IsFirstTag` for a search that begins at `from`. */
  ghost predicate IsFirstTagFrom(s: string, from: nat, m: TagMatch) {
    TagAt(s, m.start, m.keyLen, m.valueLen)
    && (forall j: nat, k: nat, v: nat :: from <= j < m.start ==> !TagAt(s, j, k, v))
    && (forall k: nat, v: nat :: m.keyLen < k ==> !TagAt(s, m.start, k, v))
    && (forall v: nat :: m.valueLen < v ==> !TagAt(s, m.start, m.keyLen, v))
  }

  /** The first match of the tag expression in `s`, if any. */
  function FindTag(s: string): (r: Option<TagMatch>)
    ensures r.Some? ==> TagAt(s, r.value.start, r.value.keyLen, r.value.valueLen)
    ensures r.None? ==> forall j: nat, k: nat, v: nat :: !TagAt(s, j, k, v)
  {
    ScanStart(s, 0)
  }

  /** The match found is the one `exec` reports. */
  lemma FindTagIsFirst(s: string)
    ensures FindTag(s).Some? ==> IsFirstTag(s, FindTag(s).value)
  {
  }

  /** The value `parseBracket` returns: `{null, null, null, false}` or the match with its
      two groups. */
  datatype Bracket =
    | NotBracket
    | Bracket(matchStr: string, key: string, value: string)

  /** `parseBracket`: the first `<key>value</key>` in `s`, or `NotBracket` when `exec` finds
      nothing (the `TypeError` of indexing `null` is caught). */
  function ParseBracket(s: string): (r: Bracket)
    ensures r.Bracket? ==> |r.key| >= 1 && |r.value| >= 1
    ensures r.Bracket? ==> NoLineTerminator(r.key) && NoLineTerminator(r.value)
    ensures r.Bracket? ==> r.matchStr == TagText(r.key, r.value)
  {
    match FindTag(s)
    case None => NotBracket
    case Some(m) =>
      var key := s[m.start + 1..m.start + 1 + m.keyLen];
      var value := s[m.start + m.keyLen + 2..m.start + m.keyLen + 2 + m.valueLen];
      Bracket(TagText(key, value), key, value)
  }

  /** `parseBracket` reports no tag exactly when the expression matches nowhere. */
  lemma ParseBracketNone(s: string)
    ensures ParseBracket(s).NotBracket? <==> forall j: nat, k: nat, v: nat :: !TagAt(s, j, k, v)
  {
    var found := FindTag(s);
    if found.Some? {
      var m := found.value;
      assert TagAt(s, m.start, m.keyLen, m.valueLen);
    }
  }

  /** At most one match satisfies the first-match rule, so `ParseBracket` is determined by it. */
  lemma FirstTagUnique(s: string, m1: TagMatch, m2: TagMatch)
    requires IsFirstTag(s, m1) && IsFirstTag(s, m2)
    ensures m1 == m2
  {
  }

  /** The scan finds the match singled out by the first-match rule. */
  lemma FindTagOfFirst(s: string, m: TagMatch)
    requires IsFirstTag(s, m)
    ensures FindTag(s) == Some(m)
  {
    FindTagIsFirst(s);
    FirstTagUnique(s, FindTag(s).value, m);
  }

  /** The matched text first occurs where the match starts, since an earlier copy of the
      same text would itself be a match; `replace(matchStr, rep)` therefore rewrites the tag
      and keeps the text around it. */
  lemma ReplaceMatch(s: string, rep: string)
    requires ParseBracket(s).Bracket?
    ensures var b := ParseBracket(s);
            exists pre, post :: s == pre + b.matchStr + post
              && ReplaceFirst(s, b.matchStr, rep) == pre + rep + post
  {
    hide ScanStart, TagAt;
    var b := ParseBracket(s);
    var i := MatchIsFirstOccurrence(s);
    var pre, post := s[..i], s[i + |b.matchStr|..];
    Cut3(s, i, i + |b.matchStr|);
    assert s == pre + b.matchStr + post;
    assert ReplaceFirst(s, b.matchStr, rep) == pre + rep + post;
  }

  /** The first occurrence of the matched text is where the match starts. */
  lemma MatchIsFirstOccurrence(s: string) returns (i: nat)
    requires ParseBracket(s).Bracket?
    ensures IndexOf(s, ParseBracket(s).matchStr) == Some(i)
  {
    var b := ParseBracket(s);
    i := FindTag(s).value.start;
    MatchOccurs(s);
    NoEarlierCopy(s, b.key, b.value);
    hide *;
    IndexOfFirst(s, b.matchStr, i);
  }

  /** The reported text occurs where the match starts. */
  lemma MatchOccurs(s: string)
    requires ParseBracket(s).Bracket?
    ensures OccursAt(s, ParseBracket(s).matchStr, FindTag(s).value.start)
    ensures ParseBracket(s).matchStr == TagText(ParseBracket(s).key, ParseBracket(s).value)
    ensures ParseBracket(s).key == s[FindTag(s).value.start + 1..FindTag(s).value.start + 1 + FindTag(s).value.keyLen]
    ensures ParseBracket(s).value == s[FindTag(s).value.start + FindTag(s).value.keyLen + 2
                                       ..FindTag(s).value.start + FindTag(s).value.keyLen + 2 + FindTag(s).value.valueLen]
  {
    hide ScanStart;
    var m := FindTag(s).value;
    TagAtText(s, m.start, m.keyLen, m.valueLen);
  }

  lemma NoEarlierCopy(s: string, key: string, value: string)
    requires FindTag(s).Some?
    requires key == s[FindTag(s).value.start + 1..FindTag(s).value.start + 1 + FindTag(s).value.keyLen]
    requires value == s[FindTag(s).value.start + FindTag(s).value.keyLen + 2
                        ..FindTag(s).value.start + FindTag(s).value.keyLen + 2 + FindTag(s).value.valueLen]
    ensures forall j: nat :: j < FindTag(s).value.start ==> !OccursAt(s, TagText(key, value), j)
  {
    var m := FindTag(s).value;
    FindTagIsFirst(s);
    forall j: nat | j < m.start
      ensures !OccursAt(s, TagText(key, value), j)
    {
      if OccursAt(s, TagText(key, value), j) {
        TextTagAt(s, j, key, value);
      }
    }
  }

  /** Greedy groups: in `<raw>a</raw> <raw>b</raw>` the value runs to the last closing tag. */
  lemma ParseBracketGreedyExample(s: string)
    requires s == "<raw>a</raw> <raw>b</raw>"
    ensures ParseBracket(s) == Bracket(s, "raw", "a</raw> <raw>b")
  {
    hide ScanStart, TagAt, IsFirstTag, TagText;
    GreedyExampleFirst(s);
    FindTagOfFirst(s, TagMatch(0, 3, 14));
    GreedyExampleText(s);
  }

  lemma GreedyExampleText(s: string)
    requires s == "<raw>a</raw> <raw>b</raw>"
    ensures s[1..4] == "raw" && s[5..19] == "a</raw> <raw>b" && TagText(s[1..4], s[5..19]) == s
  {
    GreedyExampleSlices(s);
    GreedyExampleTag(s, "raw", "a</raw> <raw>b");
  }

  lemma GreedyExampleSlices(s: string)
    requires s == "<raw>a</raw> <raw>b</raw>"
    ensures s[1..4] == "raw" && s[5..19] == "a</raw> <raw>b"
  {
    assert s[1..4] == "raw" by {
      assert s[1] == 'r' && s[2] == 'a' && s[3] == 'w';
    }
    assert s[5..19] == "a</raw> <raw>b";
  }

  lemma GreedyExampleTag(s: string, key: string, value: string)
    requires s == "<raw>a</raw> <raw>b</raw>" && key == "raw" && value == "a</raw> <raw>b"
    ensures TagText(key, value) == s
  {
  }

  lemma GreedyExampleFirst(s: string)
    requires s == "<raw>a</raw> <raw>b</raw>"
    ensures IsFirstTag(s, TagMatch(0, 3, 14))
  {
    assert s[1..4] == "raw" by {
      assert s[1] == 'r' && s[2] == 'a' && s[3] == 'w';
    }
    assert s[21..24] == "raw" by {
      assert s[21] == 'r' && s[22] == 'a' && s[23] == 'w';
    }
    assert TagAt(s, 0, 3, 14);
    forall k: nat, v: nat | 3 < k
      ensures !TagAt(s, 0, k, v)
    {
      if 2 * k + v + 5 <= |s| && 1 <= v {
        assert 4 <= k <= 9;
        assert s[k + 1] != '>';
      }
    }
  }

  // =======================================================================================
  // Identifier casing: /(?:^\w|[A-Z]|\b\w)/g followed by /\s+/g -> ""
  // =======================================================================================

  /** The word-start expression matches the single character at `j`: an ASCII capital, or a
      word character at the start of the string or after a non-word character. */
  predicate WordStartAt(s: string, j: nat)
    requires j < |s|
  {
    IsUpperAscii(s[j]) || (IsWordChar(s[j]) && (j == 0 || !IsWordChar(s[j - 1])))
  }

  /** The first `replace` of `toPascalCase`: every word start upper-cased. */
  function UpperWordStarts(s: string): string {
    seq(|s|, j requires 0 <= j < |s| => if WordStartAt(s, j) then ToUpperAscii(s[j]) else s[j])
  }

  /** The first `replace` of `toCamelCase`: the word start at offset 0 lower-cased, the others
      upper-cased. */
  function CamelWordStarts(s: string): string {
    seq(|s|, j requires 0 <= j < |s| =>
      if !WordStartAt(s, j) then s[j] else if j == 0 then ToLowerAscii(s[j]) else ToUpperAscii(s[j]))
  }

  /** The second `replace`: every `\s` character removed. */
  function StripSpaces(s: string): (r: string)
    ensures forall i :: 0 <= i < |r| ==> !IsSpace(r[i])
    ensures |r| <= |s|
  {
    if |s| == 0 then ""
    else if IsSpace(s[0]) then StripSpaces(s[1..])
    else [s[0]] + StripSpaces(s[1..])
  }

  /** Removal works character by character: the result of a concatenation is the
      concatenation of the results, and a single character is kept exactly when it is not
      white space. Together: the non-space characters of `s`, in their order. */
  lemma {:induction false} StripSpacesConcat(a: string, b: string)
    ensures StripSpaces(a + b) == StripSpaces(a) + StripSpaces(b)
    ensures |a| == 1 ==> StripSpaces(a) == if IsSpace(a[0]) then "" else a
  {
    if |a| == 0 {
      assert a + b == b;
    } else {
      var head := if IsSpace(a[0]) then "" else [a[0]];
      assert (a + b)[0] == a[0] && (a + b)[1..] == a[1..] + b;
      assert StripSpaces(a + b) == head + StripSpaces(a[1..] + b);
      assert StripSpaces(a) == head + StripSpaces(a[1..]);
      StripSpacesConcat(a[1..], b);
      assert |a| == 1 ==> a[1..] == [];
      ConcatAssoc(head, StripSpaces(a[1..]), StripSpaces(b));
    }
  }

  function ToPascalCase(s: string): string {
    StripSpaces(UpperWordStarts(s))
  }

  function ToCamelCase(s: string): string {
    StripSpaces(CamelWordStarts(s))
  }

  /** One left-to-right pass equivalent to the two replaces of `toPascalCase`; `prevWord` says
      whether the character before `s` was a word character. */
  function PascalFrom(s: string, prevWord: bool): (r: string)
    decreases |s|
  {
    if |s| == 0 then ""
    else
      var c := s[0];
      var mapped := if IsUpperAscii(c) || (IsWordChar(c) && !prevWord) then ToUpperAscii(c) else c;
      (if IsSpace(c) then "" else [mapped]) + PascalFrom(s[1..], IsWordChar(c))
  }

  lemma {:induction false} PascalFromSuffix(s: string, i: nat)
    requires i <= |s|
    ensures StripSpaces(UpperWordStarts(s)[i..]) == PascalFrom(s[i..], i > 0 && IsWordChar(s[i - 1]))
    decreases |s| - i
  {
    var u := UpperWordStarts(s);
    if i < |s| {
      PascalFromSuffix(s, i + 1);
      assert u[i..][1..] == u[i + 1..];
      assert s[i..][1..] == s[i + 1..];
      assert u[i..][0] == u[i];
    }
  }

  /** `toPascalCase` is the one-pass scan started outside a word. */
  lemma PascalCaseOnePass(s: string)
    ensures ToPascalCase(s) == PascalFrom(s, false)
  {
    PascalFromSuffix(s, 0);
    assert UpperWordStarts(s)[0..] == UpperWordStarts(s);
    assert s[0..] == s;
  }

  lemma {:induction false} PascalFromIdempotent(s: string, p: bool, q: bool)
    requires p ==> q
    ensures PascalFrom(PascalFrom(s, p), q) == PascalFrom(s, p)
    decreases |s|
  {
    if |s| > 0 {
      var c := s[0];
      var rest := PascalFrom(s[1..], IsWordChar(c));
      PascalFromIdempotent(s[1..], IsWordChar(c), IsWordChar(c));
      if IsSpace(c) {
        assert PascalFrom(s, p) == rest;
        PascalFromIdempotent(s[1..], false, q);
      } else {
        var mapped := if IsUpperAscii(c) || (IsWordChar(c) && !p) then ToUpperAscii(c) else c;
        var t := [mapped] + rest;
        assert PascalFrom(s, p) == t;
        assert t[0] == mapped && t[1..] == rest;
      }
    }
  }

  /** Upper-casing word starts and dropping spaces a second time changes nothing. */
  lemma PascalCaseIdempotent(s: string)
    ensures ToPascalCase(ToPascalCase(s)) == ToPascalCase(s)
  {
    PascalCaseOnePass(s);
    PascalCaseOnePass(ToPascalCase(s));
    PascalFromIdempotent(s, false, false);
  }

  /** The result of `toPascalCase` holds no whitespace and is no longer than its input; its
      first character, when the input starts with a word character, is that character
      upper-cased. */
  lemma PascalCaseShape(s: string)
    ensures forall i :: 0 <= i < |ToPascalCase(s)| ==> !IsSpace(ToPascalCase(s)[i])
    ensures |ToPascalCase(s)| <= |s|
    ensures |s| > 0 && IsWordChar(s[0]) ==> |ToPascalCase(s)| > 0 && ToPascalCase(s)[0] == ToUpperAscii(s[0])
  {
    PascalCaseOnePass(s);
  }

  /** `toCamelCase` differs from `toPascalCase` only in the first character, and only when the
      input starts with a word character; `" get"` becomes `"Get"` in both casings. */
  lemma CamelVersusPascal(s: string)
    ensures |s| > 0 && IsWordChar(s[0]) ==>
              |ToPascalCase(s)| > 0 && ToCamelCase(s) == [ToLowerAscii(s[0])] + ToPascalCase(s)[1..]
    ensures !(|s| > 0 && IsWordChar(s[0])) ==> ToCamelCase(s) == ToPascalCase(s)
  {
    var u := UpperWordStarts(s);
    var c := CamelWordStarts(s);
    if |s| > 0 {
      assert u[1..] == c[1..];
      assert u == [u[0]] + u[1..];
      assert c == [c[0]] + c[1..];
      if IsWordChar(s[0]) {
        assert ToPascalCase(s) == [u[0]] + StripSpaces(u[1..]);
      }
    } else {
      assert u == c;
    }
  }

  lemma {:induction false} PascalFromInsideWord(s: string)
    requires forall i :: 0 <= i < |s| ==> IsWordChar(s[i])
    ensures PascalFrom(s, true) == s
    decreases |s|
  {
    if |s| > 0 {
      PascalFromInsideWord(s[1..]);
      assert s == [s[0]] + s[1..];
    }
  }

  /** On an identifier made of word characters, `toPascalCase` upper-cases the first
      character and `toCamelCase` lower-cases it; every other character is kept. */
  lemma IdentifierCasing(s: string)
    requires |s| > 0 && forall i :: 0 <= i < |s| ==> IsWordChar(s[i])
    ensures ToPascalCase(s) == [ToUpperAscii(s[0])] + s[1..]
    ensures ToCamelCase(s) == [ToLowerAscii(s[0])] + s[1..]
  {
    PascalCaseOnePass(s);
    PascalFromInsideWord(s[1..]);
    CamelVersusPascal(s);
  }

  /** The golden names: the service class `CemService` is exported as `cemService`, and the
      endpoint `getTodos` yields the type prefix `GetTodos`. */
  lemma CasingExamples(a: string, b: string)
    requires a == "CemService" && b == "getTodos"
    ensures ToCamelCase(a) == "cemService"
    ensures ToPascalCase(b) == "GetTodos"
  {
    assert forall i :: 0 <= i < |a| ==> IsWordChar(a[i]);
    IdentifierCasing(a);
    assert forall i :: 0 <= i < |b| ==> IsWordChar(b[i]);
    IdentifierCasing(b);
  }

  // =======================================================================================
  // Quote removal: /('|")(.+)\1/g -> each match with every copy of its quote removed
  // =======================================================================================

  predicate IsQuote(c: char) {
    c == '\'' || c == '"'
  }

  /** The first line terminator at or after `from`, or the end of `s`. */
  function LineEnd(s: string, from: nat): (r: nat)
    requires from <= |s|
    decreases |s| - from
    ensures from <= r <= |s| && NoLineTerminator(s[from..r])
    ensures r < |s| ==> IsLineTerminator(s[r])
  {
    if from == |s| || IsLineTerminator(s[from]) then from else LineEnd(s, from + 1)
  }

  /** The regular expression matches `s[..q + 1]`: a quote, at least one non-terminator, and
      the same quote at `q`. */
  predicate QuoteSpan(s: string, q: nat) {
    |s| > 0 && IsQuote(s[0]) && 2 <= q < |s| && s[q] == s[0] && NoLineTerminator(s[1..q])
  }

  /** The largest `q` in `[lo, hi)` with `s[q] == c`. */
  function LastIndexIn(s: string, c: char, lo: nat, hi: nat): (r: Option<nat>)
    requires hi <= |s|
    decreases hi
    ensures r.Some? ==> lo <= r.value < hi && s[r.value] == c
    ensures r.Some? ==> forall q :: r.value < q < hi ==> s[q] != c
    ensures r.None? ==> forall q :: lo <= q < hi ==> s[q] != c
  {
    if hi <= lo then None
    else if s[hi - 1] == c then Some(hi - 1)
    else LastIndexIn(s, c, lo, hi - 1)
  }

  /** Where the greedy match starting at offset 0 ends (inclusive), if one starts there. */
  function SpanEnd(s: string): (r: Option<nat>)
    ensures r.Some? ==> QuoteSpan(s, r.value) && forall q: nat :: r.value < q ==> !QuoteSpan(s, q)
    ensures r.None? ==> forall q: nat :: !QuoteSpan(s, q)
  {
    if |s| < 3 || !IsQuote(s[0]) then None
    else
      var e := LineEnd(s, 1);
      var found := LastIndexIn(s, s[0], 2, e);
      assert forall q: nat :: e < q <= |s| ==> !NoLineTerminator(s[1..q]) by {
        forall q: nat | e < q <= |s|
          ensures !NoLineTerminator(s[1..q])
        {
          assert s[1..q][e - 1] == s[e];
        }
      }
      assert forall q: nat :: 2 <= q <= e ==> NoLineTerminator(s[1..q]) by {
        forall q: nat, i | 2 <= q <= e && 0 <= i < q - 1
          ensures !IsLineTerminator(s[1..q][i])
        {
          assert s[1..q][i] == s[1..e][i];
        }
      }
      found
  }

  /** `word.replaceAll(c, "")`. */
  function RemoveAll(s: string, c: char): (r: string)
    ensures forall i :: 0 <= i < |r| ==> r[i] != c
  {
    if |s| == 0 then ""
    else (if s[0] == c then "" else [s[0]]) + RemoveAll(s[1..], c)
  }

  /** `removeApostrophe`: the global replace resumes after each match, or one character
      further when no match starts at the current position. */
  function RemoveApostrophe(s: string): (r: string)
    decreases |s|
  {
    if |s| == 0 then ""
    else
      match SpanEnd(s)
      case Some(q) => RemoveAll(s[..q + 1], s[0]) + RemoveApostrophe(s[q + 1..])
      case None => [s[0]] + RemoveApostrophe(s[1..])
  }

  /** `s` with both quote characters removed. */
  function Unquoted(s: string): (r: string)
    ensures forall i :: 0 <= i < |r| ==> !IsQuote(r[i])
  {
    if |s| == 0 then ""
    else (if IsQuote(s[0]) then "" else [s[0]]) + Unquoted(s[1..])
  }

  lemma {:induction false} UnquotedAppend(a: string, b: string)
    ensures Unquoted(a + b) == Unquoted(a) + Unquoted(b)
    decreases |a|
  {
    if |a| == 0 {
      assert a + b == b;
    } else {
      assert (a + b)[0] == a[0];
      assert (a + b)[1..] == a[1..] + b;
      UnquotedAppend(a[1..], b);
    }
  }

  lemma {:induction false} UnquotedRemoveAll(s: string, c: char)
    requires IsQuote(c)
    ensures Unquoted(RemoveAll(s, c)) == Unquoted(s)
    decreases |s|
  {
    if |s| > 0 {
      UnquotedRemoveAll(s[1..], c);
      UnquotedAppend(if s[0] == c then "" else [s[0]], RemoveAll(s[1..], c));
    }
  }

  /** Only quote characters are ever deleted: every other character survives, in order. */
  lemma {:induction false} RemoveApostropheKeepsOthers(s: string)
    ensures Unquoted(RemoveApostrophe(s)) == Unquoted(s)
    decreases |s|
  {
    if |s| > 0 {
      match SpanEnd(s)
      case Some(q) =>
        RemoveApostropheKeepsOthers(s[q + 1..]);
        UnquotedRemoveAll(s[..q + 1], s[0]);
        UnquotedAppend(RemoveAll(s[..q + 1], s[0]), RemoveApostrophe(s[q + 1..]));
        UnquotedAppend(s[..q + 1], s[q + 1..]);
        assert s[..q + 1] + s[q + 1..] == s;
      case None =>
        RemoveApostropheKeepsOthers(s[1..]);
        UnquotedAppend([s[0]], RemoveApostrophe(s[1..]));
        UnquotedAppend([s[0]], s[1..]);
        assert [s[0]] + s[1..] == s;
    }
  }

  /** Text before the first quote is left untouched. */
  lemma {:induction false} RemoveApostropheUnquotedPrefix(p: string, t: string)
    requires forall i :: 0 <= i < |p| ==> !IsQuote(p[i])
    ensures RemoveApostrophe(p + t) == p + RemoveApostrophe(t)
    decreases |p|
  {
    if |p| > 0 {
      var s := p + t;
      assert s[0] == p[0];
      assert SpanEnd(s) == None;
      assert s[1..] == p[1..] + t;
      RemoveApostropheUnquotedPrefix(p[1..], t);
      assert p == [p[0]] + p[1..];
    } else {
      assert p + t == t;
    }
  }

  /** A string without quotes is returned unchanged. */
  lemma RemoveApostropheNoQuotes(s: string)
    requires forall i :: 0 <= i < |s| ==> !IsQuote(s[i])
    ensures RemoveApostrophe(s) == s
  {
    RemoveApostropheUnquotedPrefix(s, "");
    assert s + "" == s;
  }

  /** A quoted single-line text loses every copy of its quote, the two delimiters included:
      `'a'b'` becomes `ab`. */
  lemma RemoveApostropheSpan(c: char, t: string)
    requires IsQuote(c) && |t| >= 1 && NoLineTerminator(t)
    ensures RemoveApostrophe([c] + t + [c]) == RemoveAll(t, c)
  {
    var s := [c] + t + [c];
    var q := |t| + 1;
    assert s[1..q] == t;
    assert QuoteSpan(s, q);
    assert SpanEnd(s) == Some(q);
    assert s[..q + 1] == s;
    assert s[q + 1..] == "";
    assert RemoveApostrophe(s) == RemoveAll(s, c);
    assert s[1..] == t + [c];
    assert RemoveAll(s, c) == RemoveAll(t + [c], c);
    RemoveAllAppend(t, [c], c);
    assert RemoveAll([c], c) == "";
  }

  lemma {:induction false} RemoveAllAppend(a: string, b: string, c: char)
    ensures RemoveAll(a + b, c) == RemoveAll(a, c) + RemoveAll(b, c)
    decreases |a|
  {
    if |a| == 0 {
      assert a + b == b;
    } else {
      assert (a + b)[0] == a[0];
      assert (a + b)[1..] == a[1..] + b;
      RemoveAllAppend(a[1..], b, c);
    }
  }

  /** No copy of `c` in `r` before its first line terminator. */
  predicate NoQuoteOnLine(r: string, c: char) {
    forall i :: 0 <= i < LineEnd(r, 0) ==> r[i] != c
  }

  /** The greedy match closes at the last copy of its quote on the line: when none follows
      the closing quote, the match ends there. */
  lemma SpanEndsAtClose(c: char, t: string, r: string)
    requires IsQuote(c) && |t| >= 1 && NoLineTerminator(t) && NoQuoteOnLine(r, c)
    ensures SpanEnd([c] + t + [c] + r) == Some(|t| + 1)
  {
    var s := [c] + t + [c] + r;
    var q := |t| + 1;
    assert s[1..q] == t;
    assert QuoteSpan(s, q);
    forall q': nat | q < q' < |s| && s[q'] == s[0]
      ensures !NoLineTerminator(s[1..q'])
    {
      var i := q' - q - 1;
      assert s[q'] == r[i];
      var e := LineEnd(r, 0);
      assert e <= i;
      assert s[1..q'][q + e] == r[e];
    }
  }

  /** Text around a match is untouched: a quote-free prefix is kept, the quoted text loses
      every copy of its quote, and the scan resumes after the closing quote. */
  lemma RemoveApostropheAround(p: string, c: char, t: string, r: string)
    requires forall i :: 0 <= i < |p| ==> !IsQuote(p[i])
    requires IsQuote(c) && |t| >= 1 && NoLineTerminator(t) && NoQuoteOnLine(r, c)
    ensures RemoveApostrophe(p + [c] + t + [c] + r) == p + RemoveAll(t, c) + RemoveApostrophe(r)
  {
    var u := [c] + t + [c] + r;
    assert p + [c] + t + [c] + r == p + u;
    hide *;
    RemoveApostropheUnquotedPrefix(p, u);
    RemoveApostropheMatch(c, t, r);
    ConcatAssoc(p, RemoveAll(t, c), RemoveApostrophe(r));
  }

  /** A match at the start: the quoted text loses its quote, and the scan resumes after it. */
  lemma RemoveApostropheMatch(c: char, t: string, r: string)
    requires IsQuote(c) && |t| >= 1 && NoLineTerminator(t) && NoQuoteOnLine(r, c)
    ensures RemoveApostrophe([c] + t + [c] + r) == RemoveAll(t, c) + RemoveApostrophe(r)
  {
    var span := [c] + t + [c];
    var u := span + r;
    var q := |t| + 1;
    SpanEndsAtClose(c, t, r);
    hide *;
    assert u[0] == c && u[..q + 1] == span && u[q + 1..] == r;
    RemoveApostropheAt(u, q);
    RemoveAllSpan(c, t);
  }

  /** One turn of the scan when a match starts at the current position. */
  lemma RemoveApostropheAt(s: string, q: nat)
    requires |s| > 0 && SpanEnd(s) == Some(q)
    ensures RemoveApostrophe(s) == RemoveAll(s[..q + 1], s[0]) + RemoveApostrophe(s[q + 1..])
  {
    hide QuoteSpan, RemoveAll, SpanEnd, LineEnd, LastIndexIn, NoLineTerminator, IsQuote;
  }

  lemma RemoveAllSpan(c: char, t: string)
    ensures RemoveAll([c] + t + [c], c) == RemoveAll(t, c)
  {
    assert [c] + t + [c] == [c] + (t + [c]);
    assert ([c] + (t + [c]))[1..] == t + [c];
    RemoveAllAppend(t, [c], c);
  }

  /** A quote with no copy of itself later on its line starts no match: it is kept, and the
      scan goes on after it. */
  lemma RemoveApostropheLoneQuote(c: char, r: string)
    requires IsQuote(c) && NoQuoteOnLine(r, c)
    ensures RemoveApostrophe([c] + r) == [c] + RemoveApostrophe(r)
  {
    var s := [c] + r;
    forall q: nat | 2 <= q < |s| && s[q] == s[0]
      ensures !NoLineTerminator(s[1..q])
    {
      var e := LineEnd(r, 0);
      assert s[q] == r[q - 1];
      assert e < q - 1;
      assert s[1..q][e] == r[e];
    }
    assert s[1..] == r;
  }

  // =======================================================================================
  // Path tokens: `{identifier}`
  // =======================================================================================

  /** One `{key}` token of a path template. */
  datatype Block = Block(key: string, matchStr: string)

  /** The length of the run of word characters starting at `from`. */
  function WordRun(s: string, from: nat): (n: nat)
    requires from <= |s|
    decreases |s| - from
    ensures from + n <= |s|
    ensures forall i :: from <= i < from + n ==> IsWordChar(s[i])
    ensures from + n < |s| ==> !IsWordChar(s[from + n])
  {
    if from == |s| || !IsWordChar(s[from]) then 0 else 1 + WordRun(s, from + 1)
  }

  /** `parseBlocks`: every `{identifier}` token, left to right, duplicates kept. The helper's
      definition is not part of this model; it is taken to scan like `/\{(\w+)\}/g`. */
  function ParseBlocks(s: string): (r: seq<Block>)
    decreases |s|
    ensures forall b :: b in r ==> |b.key| >= 1 && b.matchStr == "{" + b.key + "}"
    ensures forall b :: b in r ==> forall i :: 0 <= i < |b.key| ==> IsWordChar(b.key[i])
    ensures forall b :: b in r ==> Contains(s, b.matchStr)
  {
    if |s| == 0 then []
    else if s[0] == '{' && WordRun(s, 1) >= 1 && 1 + WordRun(s, 1) < |s| && s[1 + WordRun(s, 1)] == '}' then
      var n := WordRun(s, 1);
      var key := s[1..1 + n];
      assert OccursAt(s, "{" + key + "}", 0) by {
        assert s[0..n + 2] == "{" + key + "}";
      }
      [Block(key, "{" + key + "}")] + ParseBlocksRest(s, n + 2)
    else ParseBlocksRest(s, 1)
  }

  function ParseBlocksRest(s: string, from: nat): (r: seq<Block>)
    requires 1 <= from <= |s|
    decreases |s|, 0
    ensures forall b :: b in r ==> |b.key| >= 1 && b.matchStr == "{" + b.key + "}"
    ensures forall b :: b in r ==> forall i :: 0 <= i < |b.key| ==> IsWordChar(b.key[i])
    ensures forall b :: b in r ==> Contains(s, b.matchStr)
  {
    var r := ParseBlocks(s[from..]);
    assert forall b :: b in r ==> Contains(s, b.matchStr) by {
      forall b | b in r
        ensures Contains(s, b.matchStr)
      {
        var i :| OccursAt(s[from..], b.matchStr, i);
        OccursInAppend(s[..from], s[from..], b.matchStr, i);
        assert s[..from] + s[from..] == s;
      }
    }
    r
  }
}
