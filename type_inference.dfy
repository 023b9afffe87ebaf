/** `toType`, the example-to-type inference shared by the request and service generators
    (`RequestGenerator.toType`, duplicated as `ServiceGenerator.#toType`): tagged string
    leaves are swapped for placeholder keys before the example goes to the external
    `json-to-ts` converter, and the placeholders are rewritten to the tag texts afterwards. */
module TypeInference {
  import opened Wrappers
  import opened Text
  import opened Utils
  import opened Config

  // =======================================================================================
  // Marking: tagged leaves become placeholder keys
  // =======================================================================================

  /** One rewritten leaf: its placeholder key, the tag's text and the key it had. */
  datatype Marking = Marking(targetKey: string, value: string, originKey: string)

  /** The text a scalar leaf is matched as: `String(v)`. */
  function ScalarText(v: Value): string
    requires !IsObjectType(v)
  {
    match v
    case Bool(b) => if b then "true" else "false"
    case Num(n) => if n < 0 then "-" + NatToString(-n) else NatToString(n)
    case Str(s) => s
  }

  /** `parseBracket` of a scalar leaf. */
  function LeafBracket(v: Value): Bracket
    requires !IsObjectType(v)
  {
    ParseBracket(ScalarText(v))
  }

  /** Only strings can be tags: the text of a number or a boolean has no `<`. */
  lemma OnlyStringsAreTags(v: Value)
    requires !IsObjectType(v) && !v.Str?
    ensures LeafBracket(v).NotBracket?
  {
    var t := ScalarText(v);
    assert forall i :: 0 <= i < |t| ==> t[i] != '<';
    ParseBracketNone(t);
  }

  /** The placeholder for `key`: `${key}_${randomSuffix}`. The random suffix is supplied by
      `suffix`, indexed by the number of markings made so far. */
  function TempKey(key: Key, marking: seq<Marking>, suffix: nat -> string): string {
    KeyText(key) + "_" + suffix(|marking|)
  }

  /** `markingBracket(v, marking)` on the clone: the marked value and the marking list, or the
      `TypeError` of `Object.keys(null)` when a nested value is `null`. A scalar lists no keys
      and is returned unchanged. */
  function MarkValue(v: Value, marking: seq<Marking>, suffix: nat -> string): Result<(Value, seq<Marking>)>
    decreases v, 1
  {
    match v
    case Null => Failure(NotAnObject)
    case Obj(isArray, slots) =>
      var (slots', marking') :- MarkSlots(v, 0, slots, 0, marking, suffix);
      Success((Obj(isArray, slots'), marking'))
    case _ => Success((v, marking))
  }

  /** The loop over the key snapshot `parent.slots` from its `j`-th key, on the object's current
      property list `slots`, where that key sits at position `pos`. A nested object is marked
      in place; a tagged leaf is deleted and its placeholder appended with the value "string";
      any other leaf is kept. */
  function MarkSlots(parent: Value, j: nat, slots: seq<Slot>, pos: nat, marking: seq<Marking>,
                     suffix: nat -> string): Result<(seq<Slot>, seq<Marking>)>
    requires parent.Obj? && j <= |parent.slots| && pos + (|parent.slots| - j) <= |slots|
    decreases parent, 0, |parent.slots| - j
  {
    if j == |parent.slots| then Success((slots, marking))
    else
      var slot := parent.slots[j];
      assert slot in parent.slots;
      if IsObjectType(slot.v) then
        var (inner, marking') :- MarkValue(slot.v, marking, suffix);
        MarkSlots(parent, j + 1, slots[pos := Slot(slot.key, inner)], pos + 1, marking', suffix)
      else
        match LeafBracket(slot.v)
        case NotBracket =>
          MarkSlots(parent, j + 1, slots, pos + 1, marking, suffix)
        case Bracket(_, _, value) =>
          var tempKey := TempKey(slot.key, marking, suffix);
          MarkSlots(parent, j + 1, slots[..pos] + slots[pos + 1..] + [Slot(Name(tempKey), Str("string"))], pos,
                    marking + [Marking(tempKey, value, KeyText(slot.key))], suffix)
  }

  /** `markingBracket`: walks a snapshot of the keys, deleting each tagged leaf and appending
      its placeholder, and recursing into nested objects, which it changes in place. */
  method MarkingBracket(v: Value, marking: seq<Marking>, suffix: nat -> string)
    returns (r: Result<(Value, seq<Marking>)>)
    decreases v, 1
    ensures r == MarkValue(v, marking, suffix)
  {
    hide MarkSlots, MarkValue, LeafBracket;
    if !v.Obj? {
      MarkValueLeaf(v, marking, suffix);
      if v.Null? {
        return Failure(NotAnObject);
      }
      return Success((v, marking));
    }
    var keys := v.slots;
    var slots := keys;
    var pos: nat := 0;
    var m := marking;
    ghost var target := MarkSlots(v, 0, slots, 0, marking, suffix);
    MarkValueObj(v, marking, suffix);
    var j := 0;
    while j < |keys|
      invariant 0 <= j <= |keys| && pos + (|keys| - j) <= |slots|
      invariant MarkSlots(v, j, slots, pos, m, suffix) == target
    {
      var slot := keys[j];
      assert slot in v.slots;
      if IsObjectType(slot.v) {
        var inner := MarkingBracket(slot.v, m, suffix);
        MarkSlotsNested(v, j, slots, pos, m, suffix);
        if inner.Failure? {
          return Failure(inner.error);
        }
        slots := slots[pos := Slot(slot.key, inner.value.0)];
        m := inner.value.1;
        pos := pos + 1;
      } else {
        var parsed := LeafBracket(slot.v);
        if parsed.Bracket? {
          var tempKey := KeyText(slot.key) + "_" + suffix(|m|);
          var slots' := slots[..pos] + slots[pos + 1..] + [Slot(Name(tempKey), Str("string"))];
          var m' := m + [Marking(tempKey, parsed.value, KeyText(slot.key))];
          MarkSlotsTaggedTo(v, j, slots, pos, m, suffix, tempKey, slots', m');
          slots, m := slots', m';
        } else {
          MarkSlotsPlain(v, j, slots, pos, m, suffix);
          pos := pos + 1;
        }
      }
      j := j + 1;
    }
    MarkSlotsEnd(v, slots, pos, m, suffix);
    return Success((Obj(v.isArray, slots), m));
  }

  lemma MarkValueLeaf(v: Value, marking: seq<Marking>, suffix: nat -> string)
    requires !v.Obj?
    ensures MarkValue(v, marking, suffix) == if v.Null? then Failure(NotAnObject) else Success((v, marking))
  {
  }

  lemma MarkValueObj(v: Value, marking: seq<Marking>, suffix: nat -> string)
    requires v.Obj?
    ensures var r := MarkSlots(v, 0, v.slots, 0, marking, suffix);
            MarkValue(v, marking, suffix)
            == if r.Failure? then Failure(r.error) else Success((Obj(v.isArray, r.value.0), r.value.1))
  {
  }

  lemma MarkSlotsEnd(parent: Value, slots: seq<Slot>, pos: nat, marking: seq<Marking>, suffix: nat -> string)
    requires parent.Obj? && pos <= |slots|
    ensures MarkSlots(parent, |parent.slots|, slots, pos, marking, suffix) == Success((slots, marking))
  {
  }

  // One step of the key loop, for each kind of property.

  lemma MarkSlotsNested(parent: Value, j: nat, slots: seq<Slot>, pos: nat, marking: seq<Marking>,
                        suffix: nat -> string)
    requires parent.Obj? && j < |parent.slots| && pos + (|parent.slots| - j) <= |slots|
    requires IsObjectType(parent.slots[j].v)
    ensures var inner := MarkValue(parent.slots[j].v, marking, suffix);
            MarkSlots(parent, j, slots, pos, marking, suffix)
            == if inner.Failure? then Failure(inner.error)
               else MarkSlots(parent, j + 1, slots[pos := Slot(parent.slots[j].key, inner.value.0)], pos + 1,
                              inner.value.1, suffix)
  {
  }

  lemma MarkSlotsTagged(parent: Value, j: nat, slots: seq<Slot>, pos: nat, marking: seq<Marking>,
                        suffix: nat -> string)
    requires parent.Obj? && j < |parent.slots| && pos + (|parent.slots| - j) <= |slots|
    requires !IsObjectType(parent.slots[j].v) && LeafBracket(parent.slots[j].v).Bracket?
    ensures var key := parent.slots[j].key;
            var tempKey := KeyText(key) + "_" + suffix(|marking|);
            MarkSlots(parent, j, slots, pos, marking, suffix)
            == MarkSlots(parent, j + 1, slots[..pos] + slots[pos + 1..] + [Slot(Name(tempKey), Str("string"))], pos,
                         marking + [Marking(tempKey, LeafBracket(parent.slots[j].v).value, KeyText(key))], suffix)
  {
  }

  lemma MarkSlotsTaggedTo(parent: Value, j: nat, slots: seq<Slot>, pos: nat, marking: seq<Marking>,
                          suffix: nat -> string, tempKey: string, slots': seq<Slot>, marking': seq<Marking>)
    requires parent.Obj? && j < |parent.slots| && pos < |slots| && pos + (|parent.slots| - j) <= |slots|
    requires !IsObjectType(parent.slots[j].v) && LeafBracket(parent.slots[j].v).Bracket?
    requires tempKey == KeyText(parent.slots[j].key) + "_" + suffix(|marking|)
    requires slots' == slots[..pos] + slots[pos + 1..] + [Slot(Name(tempKey), Str("string"))]
    requires marking' == marking + [Marking(tempKey, LeafBracket(parent.slots[j].v).value, KeyText(parent.slots[j].key))]
    ensures MarkSlots(parent, j, slots, pos, marking, suffix) == MarkSlots(parent, j + 1, slots', pos, marking', suffix)
  {
    MarkSlotsTagged(parent, j, slots, pos, marking, suffix);
  }

  lemma MarkSlotsPlain(parent: Value, j: nat, slots: seq<Slot>, pos: nat, marking: seq<Marking>,
                       suffix: nat -> string)
    requires parent.Obj? && j < |parent.slots| && pos + (|parent.slots| - j) <= |slots|
    requires !IsObjectType(parent.slots[j].v) && LeafBracket(parent.slots[j].v).NotBracket?
    ensures MarkSlots(parent, j, slots, pos, marking, suffix) == MarkSlots(parent, j + 1, slots, pos + 1, marking, suffix)
  {
  }

  // =======================================================================================
  // Optional values: the `undefined` alternative of a tag text
  // =======================================================================================

  /** The match of `/\|?\s?undefined\s?\|?/` at the start of `t`, as its length: an optional
      bar, an optional space, `undefined`, then an optional space and an optional bar, with
      the leading options given up when `undefined` does not follow them. */
  function UndefinedMatchLen(t: string): (r: Option<nat>)
    ensures r.Some? ==> 9 <= r.value <= |t|
    ensures r.Some? ==> OccursAt(t, "undefined", 0) || OccursAt(t, "undefined", 1) || OccursAt(t, "undefined", 2)
  {
    var lead: Option<nat> :=
      if 0 < |t| && t[0] == '|' then
        if 1 < |t| && IsSpace(t[1]) && OccursAt(t, "undefined", 2) then Some(2)
        else if OccursAt(t, "undefined", 1) then Some(1)
        else None
      else if 0 < |t| && IsSpace(t[0]) && OccursAt(t, "undefined", 1) then Some(1)
      else if OccursAt(t, "undefined", 0) then Some(0)
      else None;
    match lead
    case None => None
    case Some(p) =>
      var e := p + 9;
      var e' := if e < |t| && IsSpace(t[e]) then e + 1 else e;
      var e'' := if e' < |t| && t[e'] == '|' then e' + 1 else e';
      Some(e'')
  }

  /** What a match is replaced by: one fixed text for every match, or a bar for a match that
      is enclosed in bars and nothing otherwise. */
  datatype UndefinedRule = Fixed(text: string) | BarIfEnclosed

  function RuleText(rule: UndefinedRule, m: string): string {
    match rule
    case Fixed(text) => text
    case BarIfEnclosed => if |m| >= 2 && m[0] == '|' && m[|m| - 1] == '|' then "|" else ""
  }

  /** `t.replace(undefinedRex, …)` with the global flag: scanning from the left, every match
      is replaced and the scan resumes after it. */
  function ReplaceUndefined(t: string, rule: UndefinedRule): string
    decreases |t|
  {
    if |t| == 0 then ""
    else
      match UndefinedMatchLen(t)
      case Some(n) => RuleText(rule, t[..n]) + ReplaceUndefined(t[n..], rule)
      case None => [t[0]] + ReplaceUndefined(t[1..], rule)
  }

  /** `t.match(undefinedRex)[0]`, or `None` when `match` returns null. */
  function FirstUndefined(t: string): Option<string>
    decreases |t|
  {
    if |t| == 0 then None
    else
      match UndefinedMatchLen(t)
      case Some(n) => Some(t[..n])
      case None => FirstUndefined(t[1..])
  }

  /** Lines 194-202 of `resolveMarking` as written: when the value mentions `undefined`, every
      match is replaced by "|" if the FIRST match is exactly `|undefined|` and by "" otherwise,
      and the key becomes optional. */
  function StripUndefinedAsWritten(value: string): (string, bool) {
    match FirstUndefined(value)
    case None => (value, false)
    case Some(first) => (ReplaceUndefined(value, Fixed(if first == "|undefined|" then "|" else "")), true)
  }

  /** The same step with each match judged on its own: a match between two alternatives keeps
      one bar, any other match goes. The model of `resolveMarking` uses this one. */
  function StripUndefined(value: string): (string, bool) {
    match FirstUndefined(value)
    case None => (value, false)
    case Some(_) => (ReplaceUndefined(value, BarIfEnclosed), true)
  }

  /** The key becomes optional exactly when the tag text mentions `undefined`. */
  lemma UndefinedMakesOptional(value: string)
    ensures FirstUndefined(value).Some? <==> Contains(value, "undefined")
    ensures StripUndefined(value).1 <==> Contains(value, "undefined")
    ensures StripUndefinedAsWritten(value).1 <==> Contains(value, "undefined")
  {
    ContainsIff(value, "undefined");
    FirstUndefinedSound(value);
    if Contains(value, "undefined") {
      var i: nat :| OccursAt(value, "undefined", i);
      FirstUndefinedComplete(value, i);
    }
  }

  /** A match contains `undefined`. */
  lemma {:induction false} FirstUndefinedSound(value: string)
    ensures FirstUndefined(value).Some? ==> exists i: nat :: OccursAt(value, "undefined", i)
    decreases |value|
  {
    if |value| > 0 {
      if UndefinedMatchLen(value).Some? {
        var p: nat := if OccursAt(value, "undefined", 0) then 0
                      else if OccursAt(value, "undefined", 1) then 1 else 2;
        assert OccursAt(value, "undefined", p);
      } else if FirstUndefined(value[1..]).Some? {
        FirstUndefinedSound(value[1..]);
        var i: nat :| OccursAt(value[1..], "undefined", i);
        OccursInSuffix(value, "undefined", 1, i);
        assert OccursAt(value, "undefined", 1 + i);
      }
    }
  }

  /** The scan finds a match at or before every occurrence of `undefined`. */
  lemma {:induction false} FirstUndefinedComplete(value: string, i: nat)
    requires OccursAt(value, "undefined", i)
    ensures FirstUndefined(value).Some?
    decreases i
  {
    if i == 0 {
      assert value[0] == value[0..9][0] == 'u';
      assert UndefinedMatchLen(value).Some?;
    } else if UndefinedMatchLen(value).None? {
      assert value[1..][i - 1..i + 8] == value[i..i + 9];
      FirstUndefinedComplete(value[1..], i - 1);
    }
  }

  /** No match of the `undefined` expression starts before position `n` of `t`. */
  predicate NoUndefinedBefore(t: string, n: nat)
    requires n <= |t|
  {
    forall i :: 0 <= i < n ==> UndefinedMatchLen(t[i..]).None?
  }

  /** Positions that no match starts at are copied unchanged. */
  lemma {:induction false} ReplaceUndefinedSkip(t: string, n: nat, rule: UndefinedRule)
    requires n <= |t| && NoUndefinedBefore(t, n)
    ensures ReplaceUndefined(t, rule) == t[..n] + ReplaceUndefined(t[n..], rule)
    ensures FirstUndefined(t) == FirstUndefined(t[n..])
    decreases n
  {
    hide UndefinedMatchLen;
    if n > 0 {
      assert t[0..] == t;
      assert UndefinedMatchLen(t).None?;
      var u := t[1..];
      forall i | 0 <= i < n - 1
        ensures UndefinedMatchLen(u[i..]).None?
      {
        assert u[i..] == t[i + 1..];
      }
      ReplaceUndefinedSkip(u, n - 1, rule);
      assert u[n - 1..] == t[n..];
      assert t[..n] == [t[0]] + u[..n - 1];
      assert ReplaceUndefined(t, rule) == [t[0]] + ReplaceUndefined(u, rule);
      assert FirstUndefined(t) == FirstUndefined(u);
      hide ReplaceUndefined, FirstUndefined;
      ConcatAssoc([t[0]], u[..n - 1], ReplaceUndefined(t[n..], rule));
    }
  }

  /** An occurrence in a suffix is an occurrence in the whole string. */
  lemma OccursInSuffix(t: string, pat: string, i: nat, p: nat)
    requires i <= |t|
    ensures OccursAt(t[i..], pat, p) ==> OccursAt(t, pat, i + p)
  {
    if OccursAt(t[i..], pat, p) {
      assert t[i..][p..p + |pat|] == t[i + p..i + p + |pat|];
    }
  }

  /** No match starts at `i` when `undefined` occurs at none of `i`, `i + 1`, `i + 2`. */
  lemma NoUndefinedMatchAt(t: string, i: nat)
    requires i <= |t|
    requires !OccursAt(t, "undefined", i) && !OccursAt(t, "undefined", i + 1) && !OccursAt(t, "undefined", i + 2)
    ensures UndefinedMatchLen(t[i..]).None?
  {
    OccursInSuffix(t, "undefined", i, 0);
    OccursInSuffix(t, "undefined", i, 1);
    OccursInSuffix(t, "undefined", i, 2);
  }

  /** A string that does not mention `undefined` has no match. */
  lemma NoUndefinedNoMatch(t: string, i: nat)
    requires !Contains(t, "undefined") && i <= |t|
    ensures UndefinedMatchLen(t[i..]).None?
  {
    ContainsIff(t, "undefined");
    NoUndefinedMatchAt(t, i);
  }

  lemma NoUndefinedUnchanged(t: string, rule: UndefinedRule)
    requires !Contains(t, "undefined")
    ensures ReplaceUndefined(t, rule) == t && FirstUndefined(t).None?
  {
    forall i | 0 <= i < |t|
      ensures UndefinedMatchLen(t[i..]).None?
    {
      NoUndefinedNoMatch(t, i);
    }
    ReplaceUndefinedSkip(t, |t|, rule);
    assert t[..|t|] == t;
  }

  /** An occurrence of `undefined` cannot cover a character that is not a lower-case letter. */
  lemma UndefinedAvoids(t: string, k: nat, q: nat)
    requires k <= q < k + 9 && q < |t| && !IsLowerAscii(t[q])
    ensures !OccursAt(t, "undefined", k)
  {
    if k + 9 <= |t| {
      assert t[k..k + 9][q - k] == t[q];
    }
  }

  /** In `a + m`, where `a` does not mention `undefined` and `m` starts with `d + 1` characters
      that are not lower-case letters, `undefined` does not occur at or before `|a| + d`. */
  lemma UndefinedStartsLate(a: string, m: string, k: nat, d: nat)
    requires !Contains(a, "undefined") && k <= |a| + d && d < |m|
    requires forall q :: 0 <= q <= d ==> !IsLowerAscii(m[q])
    ensures !OccursAt(a + m, "undefined", k)
  {
    var t := a + m;
    if k + 9 <= |a| {
      assert t[k..k + 9] == a[k..k + 9];
      ContainsIff(a, "undefined");
      assert !OccursAt(a, "undefined", k);
    } else {
      var q := if k < |a| then |a| else k;
      assert t[q] == m[q - |a|];
      UndefinedAvoids(t, k, q);
    }
  }

  /** `A | undefined | B`, spaced as the comment of `resolveMarking` writes the case: the one
      match is the whole `| undefined |`. */
  lemma UndefinedBetween(a: string, b: string, rule: UndefinedRule)
    requires !Contains(a, "undefined") && !Contains(b, "undefined")
    ensures ReplaceUndefined(a + " | undefined | " + b, rule) == a + " " + RuleText(rule, "| undefined |") + " " + b
    ensures FirstUndefined(a + " | undefined | " + b) == Some("| undefined |")
  {
    var mt := "| undefined |";
    var tail := " " + b;
    NoUndefinedAfterSpace(b);
    SpacedAssembly(a, mt, tail, rule);
    JoinSpaced(a, b, mt, tail);
    assert a + " " + RuleText(rule, mt) + " " + b == (a + " ") + RuleText(rule, mt) + tail;
  }

  /** The spaced text cut at the match. */
  lemma JoinSpaced(a: string, b: string, mt: string, tail: string)
    requires mt == "| undefined |" && tail == " " + b
    ensures a + " | undefined | " + b == (a + " ") + (mt + tail)
  {
    assert " | undefined | " == " " + mt + " ";
  }

  lemma SpacedAssembly(a: string, mt: string, tail: string, rule: UndefinedRule)
    requires mt == "| undefined |" && !Contains(a, "undefined") && !Contains(tail, "undefined")
    ensures ReplaceUndefined((a + " ") + (mt + tail), rule) == (a + " ") + RuleText(rule, mt) + tail
    ensures FirstUndefined((a + " ") + (mt + tail)) == Some(mt)
  {
    var m := " " + (mt + tail);
    assert m[0] == ' ' && m[1] == '|' && m[2] == ' ';
    ClearBeforeSeparator(a, m);
    assert a + m == (a + " ") + (mt + tail);
    UndefinedMatchSpaced(mt + tail, mt, tail);
    MatchAfterClearPrefix(a + " ", mt, tail, rule);
  }

  /** A prefix without match starts, then one match, then text without `undefined`. */
  lemma MatchAfterClearPrefix(p: string, mt: string, tail: string, rule: UndefinedRule)
    requires NoUndefinedBefore(p + (mt + tail), |p|)
    requires UndefinedMatchLen(mt + tail) == Some(|mt|) && !Contains(tail, "undefined")
    ensures ReplaceUndefined(p + (mt + tail), rule) == p + RuleText(rule, mt) + tail
    ensures FirstUndefined(p + (mt + tail)) == Some(mt)
  {
    var t := p + (mt + tail);
    ReplaceUndefinedSkip(t, |p|, rule);
    assert t[..|p|] == p && t[|p|..] == mt + tail;
    MatchStep(mt + tail, |mt|, rule);
    assert (mt + tail)[..|mt|] == mt && (mt + tail)[|mt|..] == tail;
    NoUndefinedUnchanged(tail, rule);
  }

  /** A match at the start is replaced and the scan resumes after it. */
  lemma MatchStep(u: string, n: nat, rule: UndefinedRule)
    requires UndefinedMatchLen(u) == Some(n)
    ensures n <= |u|
    ensures ReplaceUndefined(u, rule) == RuleText(rule, u[..n]) + ReplaceUndefined(u[n..], rule)
    ensures FirstUndefined(u) == Some(u[..n])
  {
  }

  /** No match starts inside `a` or on the space after it when a space, a bar and a space
      follow `a`. */
  lemma ClearBeforeSeparator(a: string, m: string)
    requires !Contains(a, "undefined") && |m| >= 3 && m[0] == ' ' && m[1] == '|' && m[2] == ' '
    ensures NoUndefinedBefore(a + m, |a| + 1)
  {
    var t := a + m;
    forall i | 0 <= i < |a| + 1
      ensures UndefinedMatchLen(t[i..]).None?
    {
      UndefinedStartsLate(a, m, i, 2);
      UndefinedStartsLate(a, m, i + 1, 2);
      UndefinedStartsLate(a, m, i + 2, 2);
      NoUndefinedMatchAt(t, i);
    }
  }

  /** No match starts inside `a` when a bar follows it. */
  lemma ClearBeforeBar(a: string, m: string)
    requires !Contains(a, "undefined") && |m| >= 1 && m[0] == '|'
    ensures NoUndefinedBefore(a + m, |a|)
  {
    var t := a + m;
    forall i | 0 <= i < |a|
      ensures UndefinedMatchLen(t[i..]).None?
    {
      if i + 1 < |a| {
        UndefinedStartsLate(a, m, i, 0);
        UndefinedStartsLate(a, m, i + 1, 0);
        UndefinedStartsLate(a, m, i + 2, 0);
        NoUndefinedMatchAt(t, i);
      } else {
        // a bar follows the last character of `a`, where a space or `undefined` would be needed
        var x := t[i..];
        assert x[1] == '|';
        UndefinedAvoids(x, 0, 1);
        UndefinedAvoids(x, 1, 1);
      }
    }
  }

  lemma UndefinedMatchSpaced(u: string, mt: string, tail: string)
    requires mt == "| undefined |" && u == mt + tail
    ensures UndefinedMatchLen(u) == Some(13)
  {
    assert OccursAt(u, "undefined", 2) by {
      assert u[2..11] == mt[2..11] == "undefined";
    }
    assert u[0] == '|' && u[1] == ' ' && u[11] == ' ' && u[12] == '|';
  }

  lemma NoUndefinedAfterSpace(b: string)
    requires !Contains(b, "undefined")
    ensures !Contains(" " + b, "undefined")
  {
    var rest := " " + b;
    ContainsIff(rest, "undefined");
    ContainsIff(b, "undefined");
    forall k: nat
      ensures !OccursAt(rest, "undefined", k)
    {
      if k == 0 {
        UndefinedAvoids(rest, 0, 0);
      } else if k + 9 <= |rest| {
        assert rest[k..k + 9] == b[k - 1..k + 8];
        assert !OccursAt(b, "undefined", k - 1);
      }
    }
  }

  /** `A|undefined|B`, without spaces: the one match is `|undefined|`. */
  lemma UndefinedBetweenBars(a: string, b: string, rule: UndefinedRule)
    requires !Contains(a, "undefined") && !Contains(b, "undefined")
    ensures ReplaceUndefined(a + "|undefined|" + b, rule) == a + RuleText(rule, "|undefined|") + b
    ensures FirstUndefined(a + "|undefined|" + b) == Some("|undefined|")
  {
    var mt := "|undefined|";
    var m := mt + b;
    var t := a + m;
    assert a + "|undefined|" + b == t;
    assert m[0] == '|';
    ClearBeforeBar(a, m);
    UndefinedMatchBars(m, mt, b);
    MatchAfterClearPrefix(a, mt, b, rule);
  }

  lemma UndefinedMatchBars(u: string, mt: string, tail: string)
    requires mt == "|undefined|" && u == mt + tail
    ensures UndefinedMatchLen(u) == Some(11)
  {
    assert OccursAt(u, "undefined", 1) by {
      assert u[1..10] == mt[1..10] == "undefined";
    }
    assert u[0] == '|' && !IsSpace(u[1]) && u[10] == '|';
  }

  /** `A|undefined` at the end of a union: the match `|undefined` has no closing bar. */
  lemma UndefinedAfterBar(a: string, rule: UndefinedRule)
    requires !Contains(a, "undefined")
    ensures ReplaceUndefined(a + "|undefined", rule) == a + RuleText(rule, "|undefined")
    ensures FirstUndefined(a + "|undefined") == Some("|undefined")
  {
    var mt := "|undefined";
    assert mt + "" == mt;
    assert mt[0] == '|';
    ClearBeforeBar(a, mt);
    assert OccursAt(mt, "undefined", 1) by {
      assert mt[1..10] == "undefined";
    }
    assert !IsSpace(mt[1]);
    assert UndefinedMatchLen(mt + "") == Some(10);
    assert !Contains("", "undefined");
    MatchAfterClearPrefix(a, mt, "", rule);
  }

  // The cases listed in the comment of `resolveMarking`, as written and as intended.

  /** As written, the spaced middle case loses its separator: `A | undefined | B` becomes
      `A  B`, because the first match `| undefined |` is not the literal `|undefined|`. */
  lemma AsWrittenSpacedLosesBar(a: string, b: string)
    requires !Contains(a, "undefined") && !Contains(b, "undefined")
    ensures StripUndefinedAsWritten(a + " | undefined | " + b) == (a + "  " + b, true)
  {
    var t := a + " | undefined | " + b;
    UndefinedBetween(a, b, Fixed(""));
    assert "| undefined |" != "|undefined|" by {
      assert |"| undefined |"| == 13;
    }
    assert StripUndefinedAsWritten(t) == (ReplaceUndefined(t, Fixed("")), true);
    assert ReplaceUndefined(t, Fixed("")) == a + " " + "" + " " + b;
    GlueSpaced(a, b, "", "  ");
  }

  /** Gluing the text around a replaced match. */
  lemma GlueSpaced(a: string, b: string, r: string, sep: string)
    requires sep == " " + r + " "
    ensures a + " " + r + " " + b == a + sep + b
  {
  }

  /** Instance of the above: `string | undefined | number` becomes `string  number`, which is
      not a type. */
  lemma AsWrittenSpacedExample(a: string, b: string)
    requires a == "string" && b == "number"
    ensures StripUndefinedAsWritten(a + " | undefined | " + b).0 == "string  number"
    ensures StripUndefined(a + " | undefined | " + b).0 == "string | number"
  {
    assert !Contains(a, "undefined") && !Contains(b, "undefined");
    AsWrittenSpacedLosesBar(a, b);
    StripUndefinedSpaced(a, b);
  }

  /** The intended result for the spaced middle case: one bar stays between the alternatives. */
  lemma StripUndefinedSpaced(a: string, b: string)
    requires !Contains(a, "undefined") && !Contains(b, "undefined")
    ensures StripUndefined(a + " | undefined | " + b) == (a + " | " + b, true)
  {
    var t := a + " | undefined | " + b;
    UndefinedBetween(a, b, BarIfEnclosed);
    assert RuleText(BarIfEnclosed, "| undefined |") == "|";
    assert StripUndefined(t) == (ReplaceUndefined(t, BarIfEnclosed), true);
    assert ReplaceUndefined(t, BarIfEnclosed) == a + " " + "|" + " " + b;
    GlueSpaced(a, b, "|", " | ");
  }

  /** `A|undefined|B` becomes `A|B`, as written and as intended. */
  lemma StripUndefinedBetweenBars(a: string, b: string)
    requires !Contains(a, "undefined") && !Contains(b, "undefined")
    ensures StripUndefined(a + "|undefined|" + b) == (a + "|" + b, true)
    ensures StripUndefinedAsWritten(a + "|undefined|" + b) == (a + "|" + b, true)
  {
    UndefinedBetweenBars(a, b, BarIfEnclosed);
    UndefinedBetweenBars(a, b, Fixed("|"));
    assert RuleText(BarIfEnclosed, "|undefined|") == "|";
  }

  /** `A|undefined` becomes `A`, as written and as intended. */
  lemma StripUndefinedTrailing(a: string)
    requires !Contains(a, "undefined")
    ensures StripUndefined(a + "|undefined") == (a, true)
    ensures StripUndefinedAsWritten(a + "|undefined") == (a, true)
  {
    var t := a + "|undefined";
    UndefinedAfterBar(a, BarIfEnclosed);
    UndefinedAfterBar(a, Fixed(""));
    assert "|undefined" != "|undefined|" by {
      assert |"|undefined"| == 10;
    }
    assert RuleText(BarIfEnclosed, "|undefined") == "";
    assert StripUndefined(t) == (ReplaceUndefined(t, BarIfEnclosed), true);
    assert StripUndefinedAsWritten(t) == (ReplaceUndefined(t, Fixed("")), true);
    assert a + "" == a;
  }

  // =======================================================================================
  // Resolution: placeholders become the tag texts
  // =======================================================================================

  /** The match of `` new RegExp(`${tk}:\\s?string`) `` at the start of `t`: the key, a colon,
      an optional white-space character and `string`. The key is matched as plain text. */
  function KeyPatternLen(t: string, tk: string): (r: Option<nat>)
    ensures r.Some? ==> OccursAt(t, tk + ":", 0) && |tk| + 7 <= r.value <= |t|
  {
    if !OccursAt(t, tk + ":", 0) then None
    else
      var m := |tk| + 1;
      if m < |t| && IsSpace(t[m]) && OccursAt(t, "string", m + 1) then Some(m + 7)
      else if OccursAt(t, "string", m) then Some(m + 6)
      else None
  }

  /** `t.replace(regExp, rep)` with the global flag. */
  function ReplaceKeyPattern(t: string, tk: string, rep: string): string
    decreases |t|
  {
    if |t| == 0 then ""
    else
      match KeyPatternLen(t, tk)
      case Some(n) => rep + ReplaceKeyPattern(t[n..], tk, rep)
      case None => [t[0]] + ReplaceKeyPattern(t[1..], tk, rep)
  }

  predicate NoKeyPatternBefore(t: string, n: nat, tk: string)
    requires n <= |t|
  {
    forall i :: 0 <= i < n ==> KeyPatternLen(t[i..], tk).None?
  }

  /** Positions that no match starts at are copied unchanged. */
  lemma {:induction false} ReplaceKeySkip(t: string, n: nat, tk: string, rep: string)
    requires n <= |t| && NoKeyPatternBefore(t, n, tk)
    ensures ReplaceKeyPattern(t, tk, rep) == t[..n] + ReplaceKeyPattern(t[n..], tk, rep)
    decreases n
  {
    if n > 0 {
      assert t[0..] == t;
      var u := t[1..];
      forall i | 0 <= i < n - 1
        ensures KeyPatternLen(u[i..], tk).None?
      {
        assert u[i..] == t[i + 1..];
      }
      ReplaceKeySkip(u, n - 1, tk, rep);
      assert u[n - 1..] == t[n..];
      assert t[..n] == [t[0]] + u[..n - 1];
    }
  }

  /** Text without `tk:` is left alone. */
  lemma NoKeyUnchanged(t: string, tk: string, rep: string)
    requires !Contains(t, tk + ":")
    ensures ReplaceKeyPattern(t, tk, rep) == t
  {
    ContainsIff(t, tk + ":");
    forall i | 0 <= i < |t|
      ensures KeyPatternLen(t[i..], tk).None?
    {
      OccursInSuffix(t, tk + ":", i, 0);
    }
    ReplaceKeySkip(t, |t|, tk, rep);
    assert t[..|t|] == t;
  }

  /** A placeholder line `tk: string` is rewritten to `rep`, and nothing else changes, when
      `tk:` occurs neither earlier nor later. */
  lemma PlaceholderRewritten(pre: string, tk: string, post: string, rep: string)
    requires forall i: nat :: i < |pre| ==> !OccursAt(pre + tk + ":", tk + ":", i)
    requires !Contains(post, tk + ":")
    ensures ReplaceKeyPattern(pre + tk + ": string" + post, tk, rep) == pre + rep + post
  {
    hide KeyPatternLen;
    var head := tk + ":";
    var u := head + (" string" + post);
    var t := pre + u;
    assert pre + tk + ": string" + post == t by {
      assert tk + ": string" == head + " string";
    }
    assert ReplaceKeyPattern(t, tk, rep) == pre + ReplaceKeyPattern(u, tk, rep) by {
      NoKeyBeforePlaceholder(pre, head, " string" + post, tk);
      ReplaceKeySkip(t, |pre|, tk, rep);
      assert t[..|pre|] == pre && t[|pre|..] == u;
    }
    assert ReplaceKeyPattern(u, tk, rep) == rep + post by {
      PlaceholderMatch(u, tk, post);
      assert u[|tk| + 8..] == post;
      NoKeyUnchanged(post, tk, rep);
    }
  }

  lemma NoKeyBeforePlaceholder(pre: string, head: string, rest: string, tk: string)
    requires head == tk + ":"
    requires forall i: nat :: i < |pre| ==> !OccursAt(pre + tk + ":", tk + ":", i)
    ensures NoKeyPatternBefore(pre + (head + rest), |pre|, tk)
  {
    var t := pre + (head + rest);
    var w := pre + head;
    assert w == pre + tk + ":";
    assert t == w + rest;
    forall i | 0 <= i < |pre|
      ensures KeyPatternLen(t[i..], tk).None?
    {
      OccursInSuffix(t, head, i, 0);
      assert !OccursAt(w, head, i);
      assert i + |head| <= |w|;
      assert t[i..i + |head|] == w[i..i + |head|];
    }
  }

  lemma PlaceholderMatch(u: string, tk: string, post: string)
    requires u == (tk + ":") + (" string" + post)
    ensures KeyPatternLen(u, tk) == Some(|tk| + 8)
  {
    var m := |tk| + 1;
    assert u[..m] == tk + ":";
    assert u[m] == ' ';
    assert u[m + 1..m + 7] == "string";
  }

  /** The declaration a marking resolves to, `origin:value`; when the tag text mentions
      `undefined`, that alternative is dropped and the key gets a `?`. */
  function Declaration(mk: Marking): string {
    var (value, optional) := StripUndefined(mk.value);
    (if optional then mk.originKey + "?" else mk.originKey) + ":" + value
  }

  /** `resolveMarking`: each marking in turn rewrites its placeholder pattern. */
  function Resolve(text: string, marking: seq<Marking>): string
    decreases |marking|
  {
    if |marking| == 0 then text
    else Resolve(ReplaceKeyPattern(text, marking[0].targetKey, Declaration(marking[0])), marking[1..])
  }

  /** `resolveMarking`, the loop over the markings. */
  method ResolveMarking(pureString: string, marking: seq<Marking>) returns (result: string)
    ensures result == Resolve(pureString, marking)
  {
    result := pureString;
    if |marking| == 0 {
      return;
    }
    var i := 0;
    while i < |marking|
      invariant 0 <= i <= |marking|
      invariant Resolve(result, marking[i..]) == Resolve(pureString, marking)
    {
      var mk := marking[i];
      var value := mk.value;
      var originKey := mk.originKey;
      var regRes := FirstUndefined(value);
      if regRes.Some? {
        value := ReplaceUndefined(value, BarIfEnclosed);
        originKey := originKey + "?";
      }
      assert originKey + ":" + value == Declaration(mk);
      assert marking[i..][1..] == marking[i + 1..];
      result := ReplaceKeyPattern(result, mk.targetKey, originKey + ":" + value);
      i := i + 1;
    }
  }

  /** A single placeholder line `tk: string` becomes the declaration of its marking, and the
      text around it is kept, when `tk:` occurs nowhere else. */
  lemma ResolvePlaceholder(pre: string, post: string, mk: Marking)
    requires forall i: nat :: i < |pre| ==> !OccursAt(pre + mk.targetKey + ":", mk.targetKey + ":", i)
    requires !Contains(post, mk.targetKey + ":")
    ensures Resolve(pre + mk.targetKey + ": string" + post, [mk]) == pre + Declaration(mk) + post
  {
    PlaceholderRewritten(pre, mk.targetKey, post, Declaration(mk));
  }

  /** A tag text without `undefined` is used as it is, and the key stays required. */
  lemma DeclarationRequired(mk: Marking)
    requires !Contains(mk.value, "undefined")
    ensures Declaration(mk) == mk.originKey + ":" + mk.value
  {
    NoUndefinedUnchanged(mk.value, BarIfEnclosed);
  }

  /** `T|undefined` makes the key optional with type `T`: `title` tagged `string|undefined`
      is declared `title?:string`. */
  lemma DeclarationOptional(mk: Marking, t: string)
    requires mk.value == t + "|undefined" && !Contains(t, "undefined")
    ensures Declaration(mk) == mk.originKey + "?:" + t
  {
    StripUndefinedTrailing(t);
  }

  // =======================================================================================
  // What marking does to an example
  // =======================================================================================

  /** The example holds a `null`, itself or at any depth. */
  predicate HasNull(v: Value)
    decreases v, 1
  {
    match v
    case Null => true
    case Obj(_, _) => SlotsHaveNull(v, 0)
    case _ => false
  }

  predicate SlotsHaveNull(parent: Value, j: nat)
    requires parent.Obj? && j <= |parent.slots|
    decreases parent, 0, |parent.slots| - j
  {
    if j == |parent.slots| then false
    else
      var slot := parent.slots[j];
      assert slot in parent.slots;
      HasNull(slot.v) || SlotsHaveNull(parent, j + 1)
  }

  /** The number of tagged leaves below the example (a leaf at the top has no key to mark). */
  function CountTags(v: Value): nat
    decreases v, 1
  {
    match v
    case Obj(_, _) => SlotsTags(v, 0)
    case _ => 0
  }

  function SlotsTags(parent: Value, j: nat): nat
    requires parent.Obj? && j <= |parent.slots|
    decreases parent, 0, |parent.slots| - j
  {
    if j == |parent.slots| then 0
    else
      var slot := parent.slots[j];
      assert slot in parent.slots;
      (if IsObjectType(slot.v) then CountTags(slot.v) else if LeafBracket(slot.v).Bracket? then 1 else 0)
      + SlotsTags(parent, j + 1)
  }

  /** Marking fails exactly when the example holds a `null`, with the `TypeError` of
      `Object.keys(null)`; otherwise it makes one marking per tagged leaf. */
  lemma {:induction false} MarkingOutcome(v: Value, marking: seq<Marking>, suffix: nat -> string)
    decreases v, 1
    ensures MarkValue(v, marking, suffix).Failure? <==> HasNull(v)
    ensures MarkValue(v, marking, suffix).Failure? ==> MarkValue(v, marking, suffix).error == NotAnObject
    ensures MarkValue(v, marking, suffix).Success? ==>
              |MarkValue(v, marking, suffix).value.1| == |marking| + CountTags(v)
  {
    if v.Obj? {
      SlotsOutcome(v, 0, v.slots, 0, marking, suffix);
    }
  }

  lemma {:induction false} SlotsOutcome(parent: Value, j: nat, slots: seq<Slot>, pos: nat, marking: seq<Marking>,
                                        suffix: nat -> string)
    requires parent.Obj? && j <= |parent.slots| && pos + (|parent.slots| - j) <= |slots|
    decreases parent, 0, |parent.slots| - j
    ensures MarkSlots(parent, j, slots, pos, marking, suffix).Failure? <==> SlotsHaveNull(parent, j)
    ensures MarkSlots(parent, j, slots, pos, marking, suffix).Failure? ==>
              MarkSlots(parent, j, slots, pos, marking, suffix).error == NotAnObject
    ensures MarkSlots(parent, j, slots, pos, marking, suffix).Success? ==>
              |MarkSlots(parent, j, slots, pos, marking, suffix).value.1| == |marking| + SlotsTags(parent, j)
  {
    hide LeafBracket;
    if j < |parent.slots| {
      var slot := parent.slots[j];
      assert slot in parent.slots;
      if IsObjectType(slot.v) {
        MarkingOutcome(slot.v, marking, suffix);
        var inner := MarkValue(slot.v, marking, suffix);
        if inner.Success? {
          SlotsOutcome(parent, j + 1, slots[pos := Slot(slot.key, inner.value.0)], pos + 1, inner.value.1, suffix);
        }
      } else if LeafBracket(slot.v).Bracket? {
        var tempKey := TempKey(slot.key, marking, suffix);
        SlotsOutcome(parent, j + 1, slots[..pos] + slots[pos + 1..] + [Slot(Name(tempKey), Str("string"))], pos,
                     marking + [Marking(tempKey, LeafBracket(slot.v).value, KeyText(slot.key))], suffix);
      } else {
        SlotsOutcome(parent, j + 1, slots, pos + 1, marking, suffix);
      }
    }
  }

  /** An example without tags and without `null` goes to the converter as it is. */
  lemma {:induction false} MarkUntagged(v: Value, marking: seq<Marking>, suffix: nat -> string)
    requires !HasNull(v) && CountTags(v) == 0
    decreases v, 1
    ensures MarkValue(v, marking, suffix) == Success((v, marking))
  {
    if v.Obj? {
      SlotsUntagged(v, 0, marking, suffix);
    }
  }

  lemma {:induction false} SlotsUntagged(parent: Value, j: nat, marking: seq<Marking>, suffix: nat -> string)
    requires parent.Obj? && j <= |parent.slots|
    requires !SlotsHaveNull(parent, j) && SlotsTags(parent, j) == 0
    decreases parent, 0, |parent.slots| - j
    ensures MarkSlots(parent, j, parent.slots, j, marking, suffix) == Success((parent.slots, marking))
  {
    if j < |parent.slots| {
      var slot := parent.slots[j];
      assert slot in parent.slots;
      if IsObjectType(slot.v) {
        MarkUntagged(slot.v, marking, suffix);
        MarkSlotsNested(parent, j, parent.slots, j, marking, suffix);
        assert parent.slots[j := Slot(slot.key, slot.v)] == parent.slots;
      } else {
        MarkSlotsPlain(parent, j, parent.slots, j, marking, suffix);
      }
      SlotsUntagged(parent, j + 1, marking, suffix);
    }
  }

  /** What the key loop has made of an object's properties so far: the properties that stay
      where they were (a nested object replaced by its own marked value), the placeholders
      appended at the end, and the marking list. */
  datatype Layout = Layout(kept: seq<Slot>, moved: seq<Slot>, marking: seq<Marking>)

  /** One key of the loop applied to a layout: a nested object is marked on its own and kept
      in its place; a tagged leaf leaves its place and its placeholder `key_<suffix>` with the
      value "string" joins the moved ones, with a marking for it; any other leaf is kept. */
  function VisitOne(l: Layout, x: Slot, suffix: nat -> string): Result<Layout> {
    if IsObjectType(x.v) then
      var (inner, ms) :- MarkValue(x.v, l.marking, suffix);
      Success(Layout(l.kept + [Slot(x.key, inner)], l.moved, ms))
    else
      match LeafBracket(x.v)
      case NotBracket => Success(Layout(l.kept + [x], l.moved, l.marking))
      case Bracket(_, _, value) =>
        var tk := TempKey(x.key, l.marking, suffix);
        Success(Layout(l.kept, l.moved + [Slot(Name(tk), Str("string"))],
                       l.marking + [Marking(tk, value, KeyText(x.key))]))
  }

  /** The keys `xs` visited in order, starting from the markings `marking`; the first nested
      failure ends the walk. */
  function Visit(xs: seq<Slot>, marking: seq<Marking>, suffix: nat -> string): Result<Layout> {
    if |xs| == 0 then Success(Layout([], [], marking))
    else
      var l :- Visit(xs[..|xs| - 1], marking, suffix);
      VisitOne(l, xs[|xs| - 1], suffix)
  }

  /** The property list and markings a layout stands for: the kept properties, then the
      placeholders. */
  function Assembled(r: Result<Layout>): Result<(seq<Slot>, seq<Marking>)> {
    match r
    case Failure(e) => Failure(e)
    case Success(l) => Success((l.kept + l.moved, l.marking))
  }

  /** Marking an object keeps its untagged leaves and its nested objects, each nested object
      marked in turn (by this same lemma), in their order, and moves each of its tagged leaves
      to its end as `key_<suffix>: "string"`; the markings come in visiting order, those of a
      nested object where the loop reaches it, and the first failure inside a nested object
      is the result. */
  lemma MarkingLayout(v: Value, marking: seq<Marking>, suffix: nat -> string)
    requires v.Obj?
    ensures MarkValue(v, marking, suffix)
            == match Visit(v.slots, marking, suffix)
               case Failure(e) => Failure(e)
               case Success(l) => Success((Obj(v.isArray, l.kept + l.moved), l.marking))
  {
    assert v.slots[..0] == [];
    assert [] + v.slots[0..] + [] == v.slots;
    LayoutSlots(v, 0, Layout([], [], marking), marking, suffix);
    MarkValueObj(v, marking, suffix);
  }

  lemma {:induction false} LayoutSlots(parent: Value, j: nat, l: Layout, marking: seq<Marking>, suffix: nat -> string)
    requires parent.Obj? && j <= |parent.slots|
    requires Visit(parent.slots[..j], marking, suffix) == Success(l)
    decreases |parent.slots| - j
    ensures MarkSlots(parent, j, l.kept + parent.slots[j..] + l.moved, |l.kept|, l.marking, suffix)
            == Assembled(Visit(parent.slots, marking, suffix))
  {
    hide MarkSlots, MarkValue, Visit, VisitOne;
    var P := parent.slots;
    var slots := l.kept + P[j..] + l.moved;
    if j == |P| {
      assert P[..j] == P && P[j..] == [];
      assert slots == l.kept + l.moved;
      MarkSlotsEnd(parent, slots, |l.kept|, l.marking, suffix);
    } else {
      VisitPrefix(P, j, marking, suffix);
      var r := VisitOne(l, P[j], suffix);
      if r.Failure? {
        LayoutStepFails(parent, j, l, suffix);
        VisitFailureStays(P, j + 1, marking, suffix);
        assert Visit(P, marking, suffix) == r;
      } else {
        LayoutStep(parent, j, l, suffix);
        LayoutSlots(parent, j + 1, r.value, marking, suffix);
      }
    }
  }

  /** `Visit` over one more key. */
  lemma VisitPrefix(xs: seq<Slot>, j: nat, marking: seq<Marking>, suffix: nat -> string)
    requires j < |xs|
    ensures Visit(xs[..j + 1], marking, suffix)
            == match Visit(xs[..j], marking, suffix)
               case Failure(e) => Failure(e)
               case Success(l) => VisitOne(l, xs[j], suffix)
  {
    hide VisitOne;
    var ys := xs[..j + 1];
    assert ys[..|ys| - 1] == xs[..j] && ys[|ys| - 1] == xs[j];
  }

  /** Once the walk has failed, visiting more keys keeps the failure. */
  lemma {:induction false} VisitFailureStays(xs: seq<Slot>, j: nat, marking: seq<Marking>, suffix: nat -> string)
    requires j <= |xs| && Visit(xs[..j], marking, suffix).Failure?
    decreases |xs| - j
    ensures Visit(xs, marking, suffix) == Visit(xs[..j], marking, suffix)
  {
    hide VisitOne;
    if j == |xs| {
      assert xs[..j] == xs;
    } else {
      VisitPrefix(xs, j, marking, suffix);
      VisitFailureStays(xs, j + 1, marking, suffix);
    }
  }

  /** A key whose nested marking fails ends the loop with that failure. */
  lemma LayoutStepFails(parent: Value, j: nat, l: Layout, suffix: nat -> string)
    requires parent.Obj? && j < |parent.slots|
    requires VisitOne(l, parent.slots[j], suffix).Failure?
    ensures MarkSlots(parent, j, l.kept + parent.slots[j..] + l.moved, |l.kept|, l.marking, suffix)
            == Failure(VisitOne(l, parent.slots[j], suffix).error)
  {
    hide MarkSlots, MarkValue;
    var x := parent.slots[j];
    assert IsObjectType(x.v);
    MarkSlotsNested(parent, j, l.kept + parent.slots[j..] + l.moved, |l.kept|, l.marking, suffix);
  }

  /** One key of the loop, on the property list a layout describes, gives the property list
      of the next layout. */
  lemma LayoutStep(parent: Value, j: nat, l: Layout, suffix: nat -> string)
    requires parent.Obj? && j < |parent.slots|
    requires VisitOne(l, parent.slots[j], suffix).Success?
    ensures var l' := VisitOne(l, parent.slots[j], suffix).value;
            MarkSlots(parent, j, l.kept + parent.slots[j..] + l.moved, |l.kept|, l.marking, suffix)
            == MarkSlots(parent, j + 1, l'.kept + parent.slots[j + 1..] + l'.moved, |l'.kept|, l'.marking, suffix)
  {
    hide MarkSlots, MarkValue;
    var P := parent.slots;
    var x := P[j];
    var rest := P[j + 1..];
    var slots := l.kept + P[j..] + l.moved;
    assert P[j..] == [x] + rest;
    if IsObjectType(x.v) {
      NestedLayout(l.kept, x, rest, l.moved, Slot(x.key, MarkValue(x.v, l.marking, suffix).value.0));
      MarkSlotsNested(parent, j, slots, |l.kept|, l.marking, suffix);
    } else if LeafBracket(x.v).Bracket? {
      var tk := TempKey(x.key, l.marking, suffix);
      var ph := Slot(Name(tk), Str("string"));
      DeleteAndAppend(l.kept, x, rest, l.moved, ph);
      MarkSlotsTaggedTo(parent, j, slots, |l.kept|, l.marking, suffix, tk, slots[..|l.kept|] + slots[|l.kept| + 1..] + [ph],
                        l.marking + [Marking(tk, LeafBracket(x.v).value, KeyText(x.key))]);
    } else {
      ConcatAssoc(l.kept, [x], rest);
      MarkSlotsPlain(parent, j, slots, |l.kept|, l.marking, suffix);
    }
  }

  lemma NestedLayout(kept: seq<Slot>, slot: Slot, rest: seq<Slot>, moved: seq<Slot>, inner: Slot)
    ensures var slots := kept + ([slot] + rest) + moved;
            && |kept| < |slots|
            && slots[|kept| := inner] == kept + [inner] + rest + moved
  {
  }

  lemma DeleteAndAppend(kept: seq<Slot>, slot: Slot, rest: seq<Slot>, moved: seq<Slot>, placeholder: Slot)
    ensures var slots := kept + ([slot] + rest) + moved;
            && |kept| < |slots| && slots[|kept|] == slot
            && slots[..|kept|] + slots[|kept| + 1..] + [placeholder] == kept + rest + (moved + [placeholder])
  {
    var slots := kept + ([slot] + rest) + moved;
    assert slots[..|kept|] == kept;
    assert slots[|kept| + 1..] == rest + moved;
  }

  // =======================================================================================
  // Primitive arrays
  // =======================================================================================

  /** The position of the first `x` in `xs`, as `indexOf` finds it. */
  function FirstIndex(xs: seq<string>, x: string): (r: nat)
    requires x in xs
    ensures r < |xs| && xs[r] == x && forall k :: 0 <= k < r ==> xs[k] != x
  {
    if xs[0] == x then 0 else 1 + FirstIndex(xs[1..], x)
  }

  lemma {:induction false} FirstIndexPrefix(xs: seq<string>, y: string, x: string)
    requires x in xs
    ensures FirstIndex(xs + [y], x) == FirstIndex(xs, x)
  {
    if xs[0] != x {
      assert (xs + [y])[1..] == xs[1..] + [y];
      FirstIndexPrefix(xs[1..], y, x);
    }
  }

  /** `.filter((item, i, arr) => arr.indexOf(item) === i)`: each string once, in the order of
      first occurrence. */
  function Dedup(xs: seq<string>): (r: seq<string>)
    decreases |xs|
    ensures forall x :: x in r <==> x in xs
    ensures forall i, j :: 0 <= i < j < |r| ==> r[i] != r[j]
    ensures forall i, j :: 0 <= i < j < |r| ==> FirstIndex(xs, r[i]) < FirstIndex(xs, r[j])
  {
    if |xs| == 0 then []
    else
      var init := xs[..|xs| - 1];
      var last := xs[|xs| - 1];
      assert xs == init + [last];
      DedupStep(init, last, Dedup(init));
      Dedup(init) + (if last in init then [] else [last])
  }

  /** `r` lists each string of `xs` once, in the order of first occurrence. */
  ghost predicate FirstOccurrences(xs: seq<string>, r: seq<string>) {
    && (forall x :: x in r <==> x in xs)
    && (forall i, j :: 0 <= i < j < |r| ==> r[i] != r[j])
    && (forall i, j :: 0 <= i < j < |r| ==> FirstIndex(xs, r[i]) < FirstIndex(xs, r[j]))
  }

  lemma DedupStep(init: seq<string>, last: string, d: seq<string>)
    requires FirstOccurrences(init, d)
    ensures FirstOccurrences(init + [last], d + (if last in init then [] else [last]))
  {
    var xs := init + [last];
    forall x | x in init
      ensures FirstIndex(xs, x) == FirstIndex(init, x)
    {
      FirstIndexPrefix(init, last, x);
    }
  }

  /** The `typeof` of each element of an array, in index order; holes and named properties
      are skipped, as `map` and `filter` skip them. */
  function ItemTypes(slots: seq<Slot>): seq<string> {
    if |slots| == 0 then []
    else (if slots[0].key.Index? then [TypeOf(slots[0].v)] else []) + ItemTypes(slots[1..])
  }

  /** `_obj.every((item) => typeof item !== "object" && …)`: no element is an object or `null`. */
  predicate IsPrimitiveArray(slots: seq<Slot>) {
    forall i :: 0 <= i < |slots| && slots[i].key.Index? ==> !IsObjectType(slots[i].v)
  }

  /** The own properties of an object, and none for anything else. */
  function SlotsOf(v: Value): seq<Slot> {
    if v.Obj? then v.slots else []
  }

  lemma {:induction false} ItemTypesOfArray(items: seq<Value>, k: nat)
    requires k <= |items|
    decreases |items| - k
    ensures ItemTypes(Array(items).slots[k..]) == seq(|items| - k, i requires 0 <= i < |items| - k => TypeOf(items[k + i]))
  {
    var slots := Array(items).slots;
    if k < |items| {
      ItemTypesOfArray(items, k + 1);
      assert slots[k..][1..] == slots[k + 1..];
    }
  }

  lemma {:induction false} ScalarSlotsClean(parent: Value, j: nat)
    requires parent.Obj? && j <= |parent.slots|
    requires forall k :: j <= k < |parent.slots| ==>
               !IsObjectType(parent.slots[k].v) && LeafBracket(parent.slots[k].v).NotBracket?
    decreases |parent.slots| - j
    ensures !SlotsHaveNull(parent, j) && SlotsTags(parent, j) == 0
  {
    hide LeafBracket;
    if j < |parent.slots| {
      ScalarSlotsClean(parent, j + 1);
    }
  }

  // =======================================================================================
  // toType
  // =======================================================================================

  /** The external `json-to-ts` converter with `useTypeAlias`: the type alias lines for a value
      under a root name. */
  type JsonToTs = (Value, string) -> seq<string>

  /** The root name `json-to-ts` uses when none is given. */
  const DefaultRootName := "RootObject"

  /** The type a truthy scalar example stands for: its tag's text, or its `typeof`. */
  function ScalarType(v: Value): string
    requires !IsObjectType(v)
  {
    match LeafBracket(v)
    case Bracket(_, _, value) => value
    case NotBracket => TypeOf(v)
  }

  /** `lines.slice(1)`. */
  function DropFirst(lines: seq<string>): seq<string> {
    if |lines| == 0 then [] else lines[1..]
  }

  /** Each line prefixed with `export `, the first one also followed by `firstSuffix`. */
  function ExportLines(lines: seq<string>, firstSuffix: string): seq<string> {
    seq(|lines|, i requires 0 <= i < |lines| => "export " + lines[i] + (if i == 0 then firstSuffix else ""))
  }

  /** `toType(example, { name })`. */
  function TypeText(example: Value, name: string, jsonToTs: JsonToTs, suffix: nat -> string): Result<string> {
    if Truthy(example) && !IsObjectType(example) then
      Success("export type " + name + " = " + ScalarType(example) + ";")
    else
      var (marked, marking) :- MarkValue(example, [], suffix);
      if example.Obj? && example.isArray then
        if IsPrimitiveArray(SlotsOf(marked)) then
          Success("export type " + name + " = (" + Join(Dedup(ItemTypes(SlotsOf(marked))), "|") + ")[];")
        else
          var lines := jsonToTs(Obj(false, [Slot(Name(name), marked)]), DefaultRootName);
          Success(Resolve(Join(ExportLines(DropFirst(lines), "[]"), "\n"), marking))
      else
        Success(Resolve(Join(ExportLines(jsonToTs(marked, name), ""), "\n"), marking))
  }

  /** `toType`: a truthy scalar becomes an alias of its tag text or its `typeof`; anything else
      is marked, converted and resolved. */
  method ToType(example: Value, name: string, jsonToTs: JsonToTs, suffix: nat -> string) returns (r: Result<string>)
    ensures r == TypeText(example, name, jsonToTs, suffix)
  {
    if Truthy(example) && !IsObjectType(example) {
      var bracketParse := LeafBracket(example);
      var alias := if bracketParse.Bracket? then bracketParse.value else TypeOf(example);
      return Success("export type " + name + " = " + alias + ";");
    }
    var isArray := example.Obj? && example.isArray;
    var marked := MarkingBracket(example, [], suffix);
    if marked.Failure? {
      return Failure(marked.error);
    }
    var obj := marked.value.0;
    var marking := marked.value.1;
    if isArray {
      var isPrimitive := IsPrimitiveArray(SlotsOf(obj));
      var typeArr := Join(Dedup(ItemTypes(SlotsOf(obj))), "|");
      if isPrimitive {
        return Success("export type " + name + " = (" + typeArr + ")[];");
      }
      var typeExceptContainer := DropFirst(jsonToTs(Obj(false, [Slot(Name(name), obj)]), DefaultRootName));
      var result := Join(ExportLines(typeExceptContainer, "[]"), "\n");
      result := ResolveMarking(result, marking);
      return Success(result);
    }
    var result := Join(ExportLines(jsonToTs(obj, name), ""), "\n");
    result := ResolveMarking(result, marking);
    return Success(result);
  }

  /** A truthy scalar names its type directly: a tagged string its tag's text, any other
      scalar (numbers and booleans are never tags) its `typeof`. */
  lemma ScalarAlias(v: Value, name: string, jsonToTs: JsonToTs, suffix: nat -> string)
    requires Truthy(v) && !IsObjectType(v)
    ensures TypeText(v, name, jsonToTs, suffix)
            == Success("export type " + name + " = "
                       + (if v.Str? && ParseBracket(v.s).Bracket? then ParseBracket(v.s).value else TypeOf(v)) + ";")
  {
    if !v.Str? {
      OnlyStringsAreTags(v);
    }
  }

  /** `toType` throws exactly when the example holds a `null`. */
  lemma TypeFailsOnNull(v: Value, name: string, jsonToTs: JsonToTs, suffix: nat -> string)
    ensures TypeText(v, name, jsonToTs, suffix).Failure? <==> HasNull(v)
    ensures TypeText(v, name, jsonToTs, suffix).Failure? ==> TypeText(v, name, jsonToTs, suffix).error == NotAnObject
  {
    MarkingOutcome(v, [], suffix);
  }

  /** An object without tags: the converter's lines, each exported, and nothing rewritten. */
  lemma UntaggedObject(v: Value, name: string, jsonToTs: JsonToTs, suffix: nat -> string)
    requires v.Obj? && !v.isArray && !HasNull(v) && CountTags(v) == 0
    ensures TypeText(v, name, jsonToTs, suffix) == Success(Join(ExportLines(jsonToTs(v, name), ""), "\n"))
  {
    MarkUntagged(v, [], suffix);
    ObjectType(v, name, jsonToTs, suffix, v, []);
  }

  /** The object branch, for a given outcome of marking. */
  lemma ObjectType(v: Value, name: string, jsonToTs: JsonToTs, suffix: nat -> string,
                   marked: Value, marking: seq<Marking>)
    requires v.Obj? && !v.isArray && MarkValue(v, [], suffix) == Success((marked, marking))
    ensures TypeText(v, name, jsonToTs, suffix) == Success(Resolve(Join(ExportLines(jsonToTs(marked, name), ""), "\n"), marking))
  {
  }

  /** An array of untagged scalars: `(t1|…|tn)[]` over the distinct `typeof`s of its elements,
      in order of first appearance. */
  lemma ScalarArray(items: seq<Value>, name: string, jsonToTs: JsonToTs, suffix: nat -> string)
    requires forall i :: 0 <= i < |items| ==> !IsObjectType(items[i]) && LeafBracket(items[i]).NotBracket?
    ensures TypeText(Array(items), name, jsonToTs, suffix)
            == Success("export type " + name + " = ("
                       + Join(Dedup(seq(|items|, i requires 0 <= i < |items| => TypeOf(items[i]))), "|") + ")[];")
  {
    var v := Array(items);
    var types := seq(|items|, i requires 0 <= i < |items| => TypeOf(items[i]));
    ScalarArrayUnmarked(items, suffix);
    ItemTypesOfArray(items, 0);
    assert v.slots[0..] == v.slots;
    assert ItemTypes(v.slots) == types;
    PrimitiveArrayType(v, name, jsonToTs, suffix);
  }

  lemma ScalarArrayUnmarked(items: seq<Value>, suffix: nat -> string)
    requires forall i :: 0 <= i < |items| ==> !IsObjectType(items[i]) && LeafBracket(items[i]).NotBracket?
    ensures MarkValue(Array(items), [], suffix) == Success((Array(items), []))
  {
    ScalarSlotsClean(Array(items), 0);
    MarkUntagged(Array(items), [], suffix);
  }

  lemma PrimitiveArrayType(v: Value, name: string, jsonToTs: JsonToTs, suffix: nat -> string)
    requires v.Obj? && v.isArray && MarkValue(v, [], suffix) == Success((v, []))
    requires forall i :: 0 <= i < |v.slots| ==> !IsObjectType(v.slots[i].v)
    ensures TypeText(v, name, jsonToTs, suffix)
            == Success("export type " + name + " = (" + Join(Dedup(ItemTypes(v.slots)), "|") + ")[];")
  {
    assert IsPrimitiveArray(SlotsOf(v));
  }

  /** One tagged field: its placeholder `tk: string` in the converter's line is rewritten to
      the tag's declaration, and the rest of the line is kept. */
  lemma TaggedField(key: string, s: string, tk: string, name: string, jsonToTs: JsonToTs, suffix: nat -> string,
                    pre: string, post: string)
    requires ParseBracket(s).Bracket? && tk == key + "_" + suffix(0)
    requires jsonToTs(Obj(false, [Slot(Name(tk), Str("string"))]), name) == [pre + tk + ": string" + post]
    requires forall i: nat :: i < |"export " + pre| ==> !OccursAt("export " + pre + tk + ":", tk + ":", i)
    requires !Contains(post, tk + ":")
    ensures TypeText(Obj(false, [Slot(Name(key), Str(s))]), name, jsonToTs, suffix)
            == Success("export " + pre + Declaration(Marking(tk, ParseBracket(s).value, key)) + post)
  {
    var v := Obj(false, [Slot(Name(key), Str(s))]);
    var mk := Marking(tk, ParseBracket(s).value, key);
    var marked := Obj(false, [Slot(Name(tk), Str("string"))]);
    var line := pre + tk + ": string" + post;
    MarkedTaggedField(v, key, s, tk, suffix);
    ObjectType(v, name, jsonToTs, suffix, marked, [mk]);
    assert TypeText(v, name, jsonToTs, suffix) == Success(Resolve(Join(ExportLines([line], ""), "\n"), [mk]));
    ExportOne(pre, tk, post);
    ResolvePlaceholder("export " + pre, post, mk);
  }

  lemma MarkedTaggedField(v: Value, key: string, s: string, tk: string, suffix: nat -> string)
    requires v == Obj(false, [Slot(Name(key), Str(s))])
    requires ParseBracket(s).Bracket? && tk == key + "_" + suffix(0)
    ensures MarkValue(v, [], suffix)
            == Success((Obj(false, [Slot(Name(tk), Str("string"))]), [Marking(tk, ParseBracket(s).value, key)]))
  {
    assert LeafBracket(Str(s)) == ParseBracket(s);
    MarkValueObj(v, [], suffix);
    MarkSlotsTagged(v, 0, v.slots, 0, [], suffix);
    assert TempKey(Name(key), [], suffix) == tk;
    var rest := [Slot(Name(tk), Str("string"))];
    assert v.slots[..0] + v.slots[1..] + rest == rest;
    var ms := [Marking(tk, ParseBracket(s).value, key)];
    assert [] + [Marking(tk, LeafBracket(v.slots[0].v).value, KeyText(v.slots[0].key))] == ms;
    assert MarkSlots(v, 0, v.slots, 0, [], suffix) == MarkSlots(v, 1, rest, 0, ms, suffix);
    assert MarkSlots(v, 1, rest, 0, ms, suffix) == Success((rest, ms));
  }

  lemma ExportOne(pre: string, tk: string, post: string)
    ensures Join(ExportLines([pre + tk + ": string" + post], ""), "\n") == "export " + pre + tk + ": string" + post
  {
    var line := pre + tk + ": string" + post;
    var lines := ExportLines([line], "");
    assert |lines| == 1 && lines[0] == "export " + line + "";
    assert "export " + line + "" == "export " + pre + tk + ": string" + post;
  }
}
