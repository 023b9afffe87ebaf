/** String primitives with JavaScript semantics: the character classes of the regular
    expressions used by the generator, `indexOf`, `replace` with a string pattern, `split` on
    a non-empty separator and `join`. */
module Text {
  import opened Wrappers

  // ---------------------------------------------------------------------------------------
  // Character classes
  // ---------------------------------------------------------------------------------------

  /** The characters that `.` does not match in a JavaScript regular expression without the `s` flag. */
  predicate IsLineTerminator(c: char) {
    c == '\n' || c == '\r' || c == '\U{2028}' || c == '\U{2029}'
  }

  predicate NoLineTerminator(s: string) {
    forall i :: 0 <= i < |s| ==> !IsLineTerminator(s[i])
  }

  /** The class `\s` of JavaScript regular expressions. */
  predicate IsSpace(c: char) {
    c == '\t' || c == '\n' || c == '\U{000B}' || c == '\U{000C}' || c == '\r' || c == ' '
    || c == '\U{00A0}' || c == '\U{1680}' || ('\U{2000}' <= c <= '\U{200A}')
    || c == '\U{2028}' || c == '\U{2029}' || c == '\U{202F}' || c == '\U{205F}'
    || c == '\U{3000}' || c == '\U{FEFF}'
  }

  /** The class `\w` of JavaScript regular expressions (ASCII only). */
  predicate IsWordChar(c: char) {
    ('a' <= c <= 'z') || ('A' <= c <= 'Z') || ('0' <= c <= '9') || c == '_'
  }

  predicate IsUpperAscii(c: char) {
    'A' <= c <= 'Z'
  }

  predicate IsLowerAscii(c: char) {
    'a' <= c <= 'z'
  }

  /** `toUpperCase` restricted to the characters `\w` can match. */
  function ToUpperAscii(c: char): (r: char)
    ensures IsWordChar(c) <==> IsWordChar(r)
    ensures !IsLowerAscii(r)
    ensures IsLowerAscii(c) ==> r as int == c as int - 32
    ensures !IsLowerAscii(c) ==> r == c
  {
    if IsLowerAscii(c) then (c as int - 32) as char else c
  }

  /** `toLowerCase` restricted to the characters `\w` can match. */
  function ToLowerAscii(c: char): (r: char)
    ensures IsWordChar(c) <==> IsWordChar(r)
    ensures !IsUpperAscii(r)
    ensures IsUpperAscii(c) ==> r as int == c as int + 32
    ensures !IsUpperAscii(c) ==> r == c
  {
    if IsUpperAscii(c) then (c as int + 32) as char else c
  }

  /** `s.toLowerCase()`, restricted as `ToLowerAscii` is. */
  function ToLowerCase(s: string): (r: string)
    ensures |r| == |s| && forall i :: 0 <= i < |s| ==> !IsUpperAscii(r[i])
  {
    seq(|s|, i requires 0 <= i < |s| => ToLowerAscii(s[i]))
  }

  // ---------------------------------------------------------------------------------------
  // Searching
  // ---------------------------------------------------------------------------------------

  predicate OccursAt(s: string, p: string, i: nat) {
    i + |p| <= |s| && s[i..i + |p|] == p
  }

  /** `s.indexOf(p, from)`, with `None` for -1. */
  function IndexFrom(s: string, p: string, from: nat): (r: Option<nat>)
    decreases |s| - from
    ensures r.Some? ==> from <= r.value && OccursAt(s, p, r.value)
    ensures r.Some? ==> forall i: nat :: from <= i < r.value ==> !OccursAt(s, p, i)
    ensures r.None? ==> forall i: nat :: from <= i ==> !OccursAt(s, p, i)
  {
    if from + |p| > |s| then None
    else if OccursAt(s, p, from) then Some(from)
    else IndexFrom(s, p, from + 1)
  }

  function IndexOf(s: string, p: string): (r: Option<nat>)
    ensures r.Some? ==> OccursAt(s, p, r.value) && forall i: nat :: i < r.value ==> !OccursAt(s, p, i)
    ensures r.None? ==> forall i: nat :: !OccursAt(s, p, i)
  {
    IndexFrom(s, p, 0)
  }

  /** An occurrence with none before it is the one `indexOf` reports. */
  lemma IndexOfFirst(s: string, p: string, i: nat)
    requires OccursAt(s, p, i) && forall j: nat :: j < i ==> !OccursAt(s, p, j)
    ensures IndexOf(s, p) == Some(i)
  {
  }

  /** `s.includes(p)`. */
  predicate Contains(s: string, p: string) {
    IndexOf(s, p).Some?
  }

  lemma ContainsIff(s: string, p: string)
    ensures Contains(s, p) <==> exists i: nat :: OccursAt(s, p, i)
  {
  }

  /** An occurrence inside a prefix or a suffix is an occurrence in the whole. */
  lemma OccursInAppend(a: string, b: string, p: string, i: nat)
    ensures OccursAt(a, p, i) ==> OccursAt(a + b, p, i)
    ensures OccursAt(b, p, i) ==> OccursAt(a + b, p, |a| + i)
  {
    if OccursAt(a, p, i) {
      assert (a + b)[i..i + |p|] == a[i..i + |p|];
    }
    if OccursAt(b, p, i) {
      assert (a + b)[|a| + i..|a| + i + |p|] == b[i..i + |p|];
    }
  }

  /** An occurrence in `a + b` lies in `a`, in `b`, or straddles the boundary. */
  lemma OccursInAppendInv(a: string, b: string, p: string, i: nat)
    requires OccursAt(a + b, p, i)
    ensures i + |p| <= |a| ==> OccursAt(a, p, i)
    ensures i >= |a| ==> OccursAt(b, p, i - |a|)
  {
    if i + |p| <= |a| {
      assert a[i..i + |p|] == (a + b)[i..i + |p|];
    }
    if i >= |a| {
      assert b[i - |a|..i - |a| + |p|] == (a + b)[i..i + |p|];
    }
  }

  /** A slice of a slice is a slice of the original. */
  lemma SliceOfSlice(s: string, a: nat, b: nat, i: nat, j: nat)
    requires a <= b <= |s| && i <= j <= b - a
    ensures s[a..b][i..j] == s[a + i..a + j]
  {
    forall t | 0 <= t < j - i
      ensures s[a..b][i..j][t] == s[a + i..a + j][t]
    {
    }
  }

  /** Concatenation regroups freely. */
  lemma ConcatAssoc<T>(a: seq<T>, b: seq<T>, c: seq<T>)
    ensures a + (b + c) == a + b + c
  {
  }

  /** Cutting a string in three and gluing the pieces back gives it back. */
  lemma Cut3(s: string, i: nat, j: nat)
    requires i <= j <= |s|
    ensures s == s[..i] + s[i..j] + s[j..]
  {
  }

  // ---------------------------------------------------------------------------------------
  // Replacing
  // ---------------------------------------------------------------------------------------

  /** `s.replace(pat, rep)` with a string pattern: only the first occurrence is replaced, and a
      string without an occurrence is returned unchanged. */
  function ReplaceFirst(s: string, pat: string, rep: string): (r: string)
  {
    match IndexOf(s, pat)
    case None => s
    case Some(i) => s[..i] + rep + s[i + |pat|..]
  }

  /** When no occurrence of `pat` starts before `pre` ends, `replace` rewrites exactly the
      occurrence that follows `pre`. */
  lemma ReplaceFirstAt(s: string, pat: string, rep: string, pre: string, post: string)
    requires s == pre + pat + post
    requires forall i: nat :: i < |pre| ==> !OccursAt(s, pat, i)
    ensures ReplaceFirst(s, pat, rep) == pre + rep + post
  {
    assert OccursAt(s, pat, |pre|) by {
      assert s[|pre|..|pre| + |pat|] == pat;
    }
    assert IndexOf(s, pat) == Some(|pre|);
    assert s[..|pre|] == pre;
    assert s[|pre| + |pat|..] == post;
  }

  // ---------------------------------------------------------------------------------------
  // Joining and splitting
  // ---------------------------------------------------------------------------------------

  /** `parts.join(sep)`. */
  function Join(parts: seq<string>, sep: string): (r: string)
    ensures |parts| == 1 ==> r == parts[0]
    ensures |parts| == 0 ==> r == ""
  {
    if |parts| == 0 then ""
    else if |parts| == 1 then parts[0]
    else parts[0] + sep + Join(parts[1..], sep)
  }

  /** `parts.filter((s) => s !== "")`. */
  function NonEmpty(parts: seq<string>): (r: seq<string>)
    ensures forall i :: 0 <= i < |r| ==> r[i] != ""
    ensures forall x :: x in r <==> x in parts && x != ""
    ensures |r| <= |parts|
  {
    if |parts| == 0 then []
    else if parts[0] == "" then NonEmpty(parts[1..])
    else [parts[0]] + NonEmpty(parts[1..])
  }

  /** The non-empty strings of `parts`, comma-joined. */
  function JoinValid(parts: seq<string>): string {
    Join(NonEmpty(parts), ",")
  }

  lemma JoinValidPair(a: string, b: string)
    ensures JoinValid([a, b]) == if a == "" then b else if b == "" then a else a + "," + b
  {
    assert [a, b][1..] == [b];
    assert NonEmpty([b]) == if b == "" then [] else [b] by {
      assert [b][1..] == [];
    }
  }

  lemma JoinValidTriple(a: string, b: string, c: string)
    ensures JoinValid([a, b, c]) == JoinValid([JoinValid([a, b]), c])
  {
    JoinValidPair(a, b);
    JoinValidPair(JoinValid([a, b]), c);
    JoinValidPair(b, c);
    assert [a, b, c][1..] == [b, c];
    if a != "" {
      assert NonEmpty([a, b, c]) == [a] + NonEmpty([b, c]);
    }
  }

  /** `s.split(sep)` for a non-empty separator: the pieces between successive non-overlapping
      occurrences, scanning from the left. */
  function Split(s: string, sep: string): (r: seq<string>)
    requires |sep| > 0
    decreases |s|
    ensures |r| >= 1
  {
    match IndexOf(s, sep)
    case None => [s]
    case Some(i) => [s[..i]] + Split(s[i + |sep|..], sep)
  }

  /** Joining the pieces of a split restores the input. */
  lemma {:induction false} JoinSplit(s: string, sep: string)
    requires |sep| > 0
    ensures Join(Split(s, sep), sep) == s
    decreases |s|
  {
    var found := IndexOf(s, sep);
    if found.Some? {
      var i := found.value;
      var rest := s[i + |sep|..];
      JoinSplit(rest, sep);
      var pieces := Split(s, sep);
      assert pieces == [s[..i]] + Split(rest, sep);
      assert pieces[1..] == Split(rest, sep);
      assert s[i..i + |sep|] == sep;
      assert s == s[..i] + sep + rest;
    }
  }

  /** No piece of a split contains the separator. */
  lemma {:induction false} SplitPiecesAvoidSep(s: string, sep: string)
    requires |sep| > 0
    ensures forall k :: 0 <= k < |Split(s, sep)| ==> !Contains(Split(s, sep)[k], sep)
    decreases |s|
  {
    var found := IndexOf(s, sep);
    if found.Some? {
      var i := found.value;
      var rest := s[i + |sep|..];
      SplitPiecesAvoidSep(rest, sep);
      var head := s[..i];
      assert head + s[i..] == s;
      forall j: nat | OccursAt(head, sep, j)
        ensures false
      {
        OccursInAppend(head, s[i..], sep, j);
      }
      assert !Contains(head, sep);
      assert Split(s, sep) == [head] + Split(rest, sep);
    }
  }

  /** A first piece that avoids the separator is split off on its own. */
  lemma SplitHead(head: string, rest: string, sep: string)
    requires |sep| > 0
    requires !Contains(head + sep[..|sep| - 1], sep)
    ensures Split(head + sep + rest, sep) == [head] + Split(rest, sep)
  {
    var s := head + sep + rest;
    var w := head + sep[..|sep| - 1];
    forall j: nat | j < |head|
      ensures !OccursAt(s, sep, j)
    {
      assert !OccursAt(w, sep, j);
    }
    assert OccursAt(s, sep, |head|) by {
      assert s[|head|..|head| + |sep|] == sep;
    }
    assert IndexOf(s, sep) == Some(|head|);
    assert s[..|head|] == head;
    assert s[|head| + |sep|..] == rest;
  }

  /** Splitting pieces that avoid the separator, joined by it, gives the pieces back. */
  lemma {:induction false} SplitJoin(parts: seq<string>, sep: string)
    requires |sep| > 0 && |parts| >= 1
    requires forall k :: 0 <= k < |parts| ==> !Contains(parts[k] + sep[..|sep| - 1], sep)
    ensures Split(Join(parts, sep), sep) == parts
    decreases |parts|
  {
    var head := parts[0];
    assert !Contains(head + sep[..|sep| - 1], sep);
    if |parts| == 1 {
      assert Join(parts, sep) == head;
      forall j: nat | OccursAt(head, sep, j)
        ensures false
      {
        OccursInAppend(head, sep[..|sep| - 1], sep, j);
      }
    } else {
      var tail := Join(parts[1..], sep);
      var s := head + sep + tail;
      assert Join(parts, sep) == s;
      var w := head + sep[..|sep| - 1];
      forall j: nat | j < |head|
        ensures !OccursAt(s, sep, j)
      {
        assert !OccursAt(w, sep, j);
      }
      assert OccursAt(s, sep, |head|) by {
        assert s[|head|..|head| + |sep|] == sep;
      }
      assert IndexOf(s, sep) == Some(|head|);
      assert s[..|head|] == head;
      assert s[|head| + |sep|..] == tail;
      SplitJoin(parts[1..], sep);
    }
  }
}
