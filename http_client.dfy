/** `HttpClient.parseCookie` and `HttpClient.getFromCookie`: the cookie string is split into
    `key=value` entries, each value is decoded as JSON when it can be, and the entries become an
    object in which a later entry overrides an earlier one with the same key. The browser's
    `document.cookie` is a parameter. */
module Cookies {
  import opened Wrappers
  import opened Text
  import opened Config

  /** `JSON.parse(decodeURIComponent(text))`, with `None` where either call throws. */
  type Decoder = string -> Option<Value>

  /** A parsed cookie value: `undefined`, the raw text kept when decoding throws, or the
      decoded value. */
  datatype CookieValue = Undefined | Raw(text: string) | Decoded(v: Value)

  /** The value of an entry. An entry without `=` has no value text, and decoding `undefined`
      always throws (`JSON.parse("undefined")`), so it stays undefined. */
  function EntryValue(text: Option<string>, decode: Decoder): CookieValue {
    match text
    case None => Undefined
    case Some(t) => if decode(t).Some? then Decoded(decode(t).value) else Raw(t)
  }

  /** One entry: the text before the first `=` and the text between the first and second `=`. */
  function ParseEntry(c: string, decode: Decoder): (string, CookieValue) {
    var parts := Split(c, "=");
    (parts[0], EntryValue(if |parts| >= 2 then Some(parts[1]) else None, decode))
  }

  /** `cookie.split("; ").map(...)`. */
  function Entries(cookie: string, decode: Decoder): seq<(string, CookieValue)> {
    var pieces := Split(cookie, "; ");
    seq(|pieces|, i requires 0 <= i < |pieces| => ParseEntry(pieces[i], decode))
  }

  /** `Object.fromEntries`: entries are assigned in order. */
  function FromEntries(entries: seq<(string, CookieValue)>): map<string, CookieValue> {
    if |entries| == 0 then map[]
    else FromEntries(entries[..|entries| - 1])[entries[|entries| - 1].0 := entries[|entries| - 1].1]
  }

  /** `parseCookie`. */
  function ParseCookie(cookie: string, decode: Decoder): map<string, CookieValue> {
    FromEntries(Entries(cookie, decode))
  }

  /** `getFromCookie`: the parsed value of `key`, undefined when the cookie has none. */
  function GetFromCookie(cookie: string, key: string, decode: Decoder): CookieValue {
    var cookieMap := ParseCookie(cookie, decode);
    if key in cookieMap then cookieMap[key] else Undefined
  }

  // =======================================================================================
  // Entries
  // =======================================================================================

  /** A key never contains `=`. */
  lemma EntryKey(c: string, decode: Decoder)
    ensures !Contains(ParseEntry(c, decode).0, "=")
  {
    SplitPiecesAvoidSep(c, "=");
  }

  lemma NoCharNoOccurrence(t: string, pat: string)
    requires |pat| > 0 && pat[0] !in t
    ensures !Contains(t, pat)
  {
    forall j: nat | j + |pat| <= |t|
      ensures !OccursAt(t, pat, j)
    {
      assert t[j..j + |pat|][0] == t[j];
    }
  }

  /** An entry without `=` is a key with an undefined value. */
  lemma EntryWithoutValue(c: string, decode: Decoder)
    requires '=' !in c
    ensures ParseEntry(c, decode) == (c, Undefined)
  {
    NoCharNoOccurrence(c, "=");
  }

  /** `key=value` gives the key and the decoded value. */
  lemma EntryKeyValue(k: string, v: string, decode: Decoder)
    requires '=' !in k && '=' !in v
    ensures ParseEntry(k + "=" + v, decode) == (k, EntryValue(Some(v), decode))
  {
    NoCharNoOccurrence(k, "=");
    NoCharNoOccurrence(v, "=");
    assert k + "="[..0] == k;
    SplitHead(k, v, "=");
  }

  /** Text after a second `=` is discarded. */
  lemma EntryDropsAfterSecondEquals(k: string, v: string, rest: string, decode: Decoder)
    requires '=' !in k && '=' !in v
    ensures ParseEntry(k + "=" + v + "=" + rest, decode) == (k, EntryValue(Some(v), decode))
  {
    NoCharNoOccurrence(k, "=");
    NoCharNoOccurrence(v, "=");
    assert k + "="[..0] == k && v + "="[..0] == v;
    SplitHead(v, rest, "=");
    assert k + "=" + v + "=" + rest == k + "=" + (v + "=" + rest);
    SplitHead(k, v + "=" + rest, "=");
  }

  // =======================================================================================
  // Later entries win
  // =======================================================================================

  /** A key is in the parsed object exactly when some entry has it. */
  lemma {:induction false} FromEntriesKeys(entries: seq<(string, CookieValue)>, k: string)
    ensures k in FromEntries(entries) <==> exists i :: 0 <= i < |entries| && entries[i].0 == k
  {
    if |entries| > 0 {
      var init := entries[..|entries| - 1];
      FromEntriesKeys(init, k);
      assert forall i :: 0 <= i < |init| ==> init[i] == entries[i];
    }
  }

  /** The value of a key is the value of its last entry. */
  lemma {:induction false} LaterEntryWins(entries: seq<(string, CookieValue)>, i: nat)
    requires i < |entries|
    requires forall j :: i < j < |entries| ==> entries[j].0 != entries[i].0
    ensures entries[i].0 in FromEntries(entries)
    ensures FromEntries(entries)[entries[i].0] == entries[i].1
  {
    var last := |entries| - 1;
    if i < last {
      var init := entries[..last];
      assert init[i] == entries[i];
      LaterEntryWins(init, i);
    }
  }

  // =======================================================================================
  // Round trip
  // =======================================================================================

  /** A cookie string written from `key=value` pairs joined by `; `. */
  function CookieText(pairs: seq<(string, string)>): string {
    Join(seq(|pairs|, i requires 0 <= i < |pairs| => pairs[i].0 + "=" + pairs[i].1), "; ")
  }

  /** Pairs whose keys and values hold neither `=` nor `;`. */
  predicate PlainPairs(pairs: seq<(string, string)>) {
    forall i :: 0 <= i < |pairs| ==>
      '=' !in pairs[i].0 && '=' !in pairs[i].1 && ';' !in pairs[i].0 && ';' !in pairs[i].1
  }

  lemma PieceAvoidsSeparator(k: string, v: string)
    requires ';' !in k && ';' !in v
    ensures !Contains(k + "=" + v + "; "[..1], "; ")
  {
    var t := k + "=" + v;
    var w := t + "; "[..1];
    assert w == t + ";";
    forall j: nat | j + 2 <= |w|
      ensures !OccursAt(w, "; ", j)
    {
      assert w[j..j + 2][0] == w[j] == t[j];
      if j < |k| {
        assert t[j] == k[j];
      } else if j > |k| {
        assert t[j] == v[j - |k| - 1];
      }
    }
  }

  /** Parsing a cookie string written from plain pairs gives the pairs back, in order, with
      their values decoded. */
  lemma EntriesRoundTrip(pairs: seq<(string, string)>, decode: Decoder)
    requires |pairs| >= 1 && PlainPairs(pairs)
    ensures Entries(CookieText(pairs), decode)
            == seq(|pairs|, i requires 0 <= i < |pairs| => (pairs[i].0, EntryValue(Some(pairs[i].1), decode)))
  {
    var pieces := seq(|pairs|, i requires 0 <= i < |pairs| => pairs[i].0 + "=" + pairs[i].1);
    forall k | 0 <= k < |pieces|
      ensures !Contains(pieces[k] + "; "[..1], "; ")
    {
      PieceAvoidsSeparator(pairs[k].0, pairs[k].1);
    }
    SplitJoin(pieces, "; ");
    forall i | 0 <= i < |pairs|
      ensures ParseEntry(pieces[i], decode) == (pairs[i].0, EntryValue(Some(pairs[i].1), decode))
    {
      EntryKeyValue(pairs[i].0, pairs[i].1, decode);
    }
  }

  /** Looking a key up in a cookie string written from plain pairs gives the decoded value of
      its last pair, and undefined when no pair has the key. */
  lemma GetFromCookieRoundTrip(pairs: seq<(string, string)>, key: string, decode: Decoder)
    requires |pairs| >= 1 && PlainPairs(pairs)
    ensures (forall i :: 0 <= i < |pairs| ==> pairs[i].0 != key) ==> GetFromCookie(CookieText(pairs), key, decode) == Undefined
    ensures forall i :: 0 <= i < |pairs| && pairs[i].0 == key && (forall j :: i < j < |pairs| ==> pairs[j].0 != key) ==>
              GetFromCookie(CookieText(pairs), key, decode) == EntryValue(Some(pairs[i].1), decode)
  {
    EntriesRoundTrip(pairs, decode);
    var entries := Entries(CookieText(pairs), decode);
    FromEntriesKeys(entries, key);
    forall i | 0 <= i < |pairs| && pairs[i].0 == key && (forall j :: i < j < |pairs| ==> pairs[j].0 != key)
      ensures GetFromCookie(CookieText(pairs), key, decode) == EntryValue(Some(pairs[i].1), decode)
    {
      LaterEntryWins(entries, i);
    }
  }
}
