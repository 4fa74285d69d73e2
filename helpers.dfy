/** remove_rule: strip validation rules, selected by name prefix, from an
    attribute's rule list, given either as a pipe-delimited string or as an
    array of plain rule strings and rule objects. */
module Helpers {
  import Pipe

  /** One entry of a rule array. A rule object is matched through the
      snake-cased basename of its class, carried here already derived;
      its constructor arguments are kept but never looked at. */
  datatype Token =
    | Plain(text: string)
    | RuleObject(snakeName: string, args: seq<string>)

  /** The two forms remove_rule accepts and returns. */
  datatype Spec =
    | Str(s: string)
    | Arr(ts: seq<Token>)

  /** Laravel's Str::startsWith for one needle: an empty needle never
      matches; otherwise a case-sensitive prefix test. */
  predicate StartsWith(haystack: string, needle: string)
  {
    needle != "" && |needle| <= |haystack| && haystack[..|needle|] == needle
  }

  /** A shorter entry removes whatever a longer one it begins removes:
      "min" removes every rule that "min:5" removes. */
  lemma ShorterEntryRemovesMore(haystack: string, entry: string, shorter: string)
    requires StartsWith(haystack, entry) && StartsWith(entry, shorter)
    ensures StartsWith(haystack, shorter)
  {
    assert haystack[..|entry|][..|shorter|] == haystack[..|shorter|];
  }

  /** The string a token is matched against: the whole text of a plain
      rule, parameters included, or the derived name of a rule object. */
  function MatchString(t: Token): (r: string)
  {
    match t
    case Plain(text) => text
    case RuleObject(name, _) => name
  }

  /** A token is removed when some entry of toRemove is a prefix of its
      match string. */
  predicate Removed(t: Token, toRemove: seq<string>)
  {
    exists k :: 0 <= k < |toRemove| && StartsWith(MatchString(t), toRemove[k])
  }

  /** The tokens that survive, in their original order. */
  function Filter(ts: seq<Token>, toRemove: seq<string>): (r: seq<Token>)
    ensures |r| <= |ts|
  {
    if |ts| == 0 then []
    else (if Removed(ts[0], toRemove) then [] else [ts[0]]) + Filter(ts[1..], toRemove)
  }

  /** The tokens that are taken out, in their original order. */
  function Dropped(ts: seq<Token>, toRemove: seq<string>): (r: seq<Token>)
  {
    if |ts| == 0 then []
    else (if Removed(ts[0], toRemove) then [ts[0]] else []) + Dropped(ts[1..], toRemove)
  }

  /** Plain tokens for the pieces of an exploded string. */
  function Plains(parts: seq<string>): (r: seq<Token>)
    ensures |r| == |parts|
    ensures forall i :: 0 <= i < |parts| ==> r[i] == Plain(parts[i])
  {
    seq(|parts|, i requires 0 <= i < |parts| => Plain(parts[i]))
  }

  predicate AllPlain(ts: seq<Token>)
  {
    forall i :: 0 <= i < |ts| ==> ts[i].Plain?
  }

  /** The texts of a sequence of plain tokens, ready for implode. */
  function Texts(ts: seq<Token>): (r: seq<string>)
    requires AllPlain(ts)
    ensures |r| == |ts|
    ensures forall i :: 0 <= i < |ts| ==> Plain(r[i]) == ts[i]
  {
    seq(|ts|, i requires 0 <= i < |ts| => ts[i].text)
  }

  /** The token sequence remove_rule works on: the exploded string, or the array. */
  function Tokens(spec: Spec): (r: seq<Token>)
    ensures spec.Str? ==> |r| >= 1 && AllPlain(r)
  {
    match spec
    case Str(s) => Plains(Pipe.Split(s))
    case Arr(ts) => ts
  }

  /** Every kept token comes from the input and is matched by no entry. */
  lemma {:induction false} FilterMembers(ts: seq<Token>, toRemove: seq<string>)
    ensures forall t :: t in Filter(ts, toRemove) ==> t in ts && !Removed(t, toRemove)
    decreases |ts|
  {
    if |ts| > 0 {
      FilterMembers(ts[1..], toRemove);
    }
  }

  /** Every token of the string form is plain, and filtering keeps that. */
  lemma FilterKeepsPlain(ts: seq<Token>, toRemove: seq<string>)
    requires AllPlain(ts)
    ensures AllPlain(Filter(ts, toRemove))
  {
    var r := Filter(ts, toRemove);
    FilterMembers(ts, toRemove);
    forall i | 0 <= i < |r| ensures r[i].Plain? {
      assert r[i] in r;
    }
  }

  /** The result of remove_rule, in the form of its input. */
  function Filtered(spec: Spec, toRemove: seq<string>): (r: Spec)
    ensures r.Str? <==> spec.Str?
  {
    var kept := Filter(Tokens(spec), toRemove);
    if spec.Str? then
      FilterKeepsPlain(Tokens(spec), toRemove);
      Str(Pipe.Join(Texts(kept)))
    else Arr(kept)
  }

  /** array_values on a PHP list from which entries were unset: the
      values at the keys 0 .. n-1 still present, in key order. */
  function ArrayValues(slots: map<nat, Token>, n: nat): (r: seq<Token>)
    ensures |r| <= n
    ensures forall t :: t in r ==> exists k :: k in slots && k < n && slots[k] == t
  {
    if n == 0 then []
    else ArrayValues(slots, n - 1) + (if n - 1 in slots then [slots[n - 1]] else [])
  }

  // ---------------------------------------------------------------------
  // The imperative model of remove_rule.
  // ---------------------------------------------------------------------

  /** remove_rule: explode a string, unset every entry whose match string
      starts with an entry of rulesToRemove (stopping at the first such
      entry), re-index, and give the result back in the input's form. */
  method RemoveRule(attributeRules: Spec, rulesToRemove: seq<string>) returns (result: Spec)
    ensures result == Filtered(attributeRules, rulesToRemove)
    ensures result.Str? <==> attributeRules.Str?
  {
    var rules := if attributeRules.Str? then Plains(Pipe.Split(attributeRules.s)) else attributeRules.ts;
    var slots: map<nat, Token> := map i: nat | i < |rules| :: rules[i];
    InitialSlots(rules, rulesToRemove, slots);
    for index := 0 to |rules|
      invariant SlotsHold(slots, rules)
      invariant SlotsDone(slots, rules, rulesToRemove, index)
    {
      var rule := rules[index];
      var ruleString := MatchString(rule);
      ghost var before := slots;
      slots := UnsetIfMatched(slots, index, ruleString, rulesToRemove);
      UnsetStep(before, slots, rules, rulesToRemove, index);
    }
    var values := ArrayValues(slots, |rules|);
    if attributeRules.Str? {
      ValuesStayPlain(slots, rules);
      result := Str(Pipe.Join(Texts(values)));
    } else {
      result := Arr(values);
    }
    ReindexAndRejoin(attributeRules, rulesToRemove, rules, slots, result);
  }

  /** The inner loop of remove_rule: try the entries in turn, and at the
      first one that matches, unset the key and stop. */
  method UnsetIfMatched(slots: map<nat, Token>, index: nat, ruleString: string, rulesToRemove: seq<string>)
    returns (after: map<nat, Token>)
    ensures after == if exists j :: 0 <= j < |rulesToRemove| && StartsWith(ruleString, rulesToRemove[j])
                     then slots - {index} else slots
  {
    after := slots;
    for j := 0 to |rulesToRemove|
      invariant after == slots
      invariant NoneMatches(ruleString, rulesToRemove[..j])
    {
      if StartsWith(ruleString, rulesToRemove[j]) {
        after := slots - {index};
        break;
      }
      assert rulesToRemove[..j + 1] == rulesToRemove[..j] + [rulesToRemove[j]];
    }
    if after == slots {
      assert rulesToRemove[..|rulesToRemove|] == rulesToRemove;
    }
  }

  /** Re-indexing a list of plain tokens gives plain tokens. */
  lemma ValuesStayPlain(slots: map<nat, Token>, rules: seq<Token>)
    requires SlotsHold(slots, rules) && AllPlain(rules)
    ensures AllPlain(ArrayValues(slots, |rules|))
  {
    var values := ArrayValues(slots, |rules|);
    forall i | 0 <= i < |values| ensures values[i].Plain? {
      assert values[i] in values;
    }
  }

  /** The PHP list built from the tokens has every key, each with its token. */
  lemma InitialSlots(rules: seq<Token>, toRemove: seq<string>, slots: map<nat, Token>)
    requires slots == map i: nat | i < |rules| :: rules[i]
    ensures SlotsHold(slots, rules) && SlotsDone(slots, rules, toRemove, 0)
  {
  }

  /** After the loop, array_values and (for the string form) implode give
      the specification's result. */
  lemma ReindexAndRejoin(spec: Spec, toRemove: seq<string>, rules: seq<Token>, slots: map<nat, Token>, result: Spec)
    requires rules == Tokens(spec)
    requires SlotsHold(slots, rules) && SlotsDone(slots, rules, toRemove, |rules|)
    requires spec.Str? ==> AllPlain(ArrayValues(slots, |rules|))
    requires var values := ArrayValues(slots, |rules|);
             result == if spec.Str? then Str(Pipe.Join(Texts(values))) else Arr(values)
    ensures result == Filtered(spec, toRemove)
  {
    ArrayValuesIsFilter(slots, rules, toRemove, |rules|);
    assert rules[..|rules|] == rules;
  }

  /** The PHP list still holds the original value at every key it has. */
  ghost predicate SlotsHold(slots: map<nat, Token>, rules: seq<Token>)
  {
    forall i :: i in slots ==> i < |rules| && slots[i] == rules[i]
  }

  /** Keys before index are present exactly for the tokens that are kept;
      keys from index on are all still present. */
  ghost predicate SlotsDone(slots: map<nat, Token>, rules: seq<Token>, toRemove: seq<string>, index: nat)
  {
    forall i :: 0 <= i < |rules| ==> (i in slots <==> (index <= i || !Removed(rules[i], toRemove)))
  }

  ghost predicate NoneMatches(m: string, entries: seq<string>)
  {
    forall k :: 0 <= k < |entries| ==> !StartsWith(m, entries[k])
  }

  /** One pass of the inner loop: the key is unset exactly when the token is removed. */
  lemma UnsetStep(before: map<nat, Token>, after: map<nat, Token>, rules: seq<Token>, toRemove: seq<string>, index: nat)
    requires index < |rules|
    requires SlotsHold(before, rules) && SlotsDone(before, rules, toRemove, index)
    requires after == if Removed(rules[index], toRemove) then before - {index} else before
    ensures SlotsHold(after, rules) && SlotsDone(after, rules, toRemove, index + 1)
  {
  }

  // ---------------------------------------------------------------------
  // Lemmas.
  // ---------------------------------------------------------------------

  /** One token alone is kept exactly when no entry matches it. */
  lemma FilterOne(t: Token, toRemove: seq<string>)
    ensures Filter([t], toRemove) == if Removed(t, toRemove) then [] else [t]
  {
    assert [t][1..] == [];
  }

  /** Filtering distributes over concatenation. */
  lemma {:induction false} FilterAppend(a: seq<Token>, b: seq<Token>, toRemove: seq<string>)
    ensures Filter(a + b, toRemove) == Filter(a, toRemove) + Filter(b, toRemove)
    decreases |a|
  {
    if |a| == 0 {
      assert a + b == b;
    } else {
      var t := a[0];
      assert (a + b)[0] == t;
      assert (a + b)[1..] == a[1..] + b;
      FilterAppend(a[1..], b, toRemove);
      if Removed(t, toRemove) {
        assert Filter(a + b, toRemove) == Filter(a[1..] + b, toRemove);
        assert Filter(a, toRemove) == Filter(a[1..], toRemove);
      } else {
        assert Filter(a + b, toRemove) == [t] + Filter(a[1..] + b, toRemove);
        assert Filter(a, toRemove) == [t] + Filter(a[1..], toRemove);
      }
    }
  }

  /** After the loop, the array left behind by the unsets re-indexes to
      the filtered prefix. */
  lemma {:induction false} ArrayValuesIsFilter(slots: map<nat, Token>, rules: seq<Token>, toRemove: seq<string>, n: nat)
    requires n <= |rules|
    requires forall i :: i in slots ==> i < |rules| && slots[i] == rules[i]
    requires forall i :: 0 <= i < |rules| ==> (i in slots <==> !Removed(rules[i], toRemove))
    ensures ArrayValues(slots, n) == Filter(rules[..n], toRemove)
  {
    if n > 0 {
      ArrayValuesIsFilter(slots, rules, toRemove, n - 1);
      assert (n - 1 in slots) == !Removed(rules[n - 1], toRemove);
      ArrayValuesStep(slots, rules, toRemove, n);
    }
  }

  /** One more position of the array: its value is appended exactly when
      it was not unset. */
  lemma ArrayValuesStep(slots: map<nat, Token>, rules: seq<Token>, toRemove: seq<string>, n: nat)
    requires 0 < n <= |rules|
    requires n - 1 in slots ==> slots[n - 1] == rules[n - 1]
    requires (n - 1 in slots) == !Removed(rules[n - 1], toRemove)
    requires ArrayValues(slots, n - 1) == Filter(rules[..n - 1], toRemove)
    ensures ArrayValues(slots, n) == Filter(rules[..n], toRemove)
  {
    var t := rules[n - 1];
    assert rules[..n] == rules[..n - 1] + [t];
    FilterAppend(rules[..n - 1], [t], toRemove);
    FilterOne(t, toRemove);
  }

  /** The kept tokens are exactly the unremoved input tokens, in their
      original relative order. */
  lemma {:induction false} FilterSelects(ts: seq<Token>, toRemove: seq<string>) returns (idx: seq<nat>)
    ensures Selects(ts, toRemove, idx, Filter(ts, toRemove))
    decreases |ts|
  {
    if |ts| == 0 {
      idx := [];
    } else {
      var rest := FilterSelects(ts[1..], toRemove);
      idx := SelectsCons(ts, toRemove, rest, Filter(ts[1..], toRemove));
    }
  }

  /** idx lists, increasingly, exactly the positions of ts that no entry
      matches, and kept holds the tokens at those positions. */
  ghost predicate Selects(ts: seq<Token>, toRemove: seq<string>, idx: seq<nat>, kept: seq<Token>)
  {
    && |idx| == |kept|
    && (forall k :: 0 <= k < |idx| ==> idx[k] < |ts| && kept[k] == ts[idx[k]])
    && (forall k, l :: 0 <= k < l < |idx| ==> idx[k] < idx[l])
    && (forall i :: 0 <= i < |ts| ==> (i in idx <==> !Removed(ts[i], toRemove)))
  }

  /** The selection for ts[1..], shifted, extends to one for ts. */
  lemma SelectsCons(ts: seq<Token>, toRemove: seq<string>, rest: seq<nat>, tail: seq<Token>) returns (idx: seq<nat>)
    requires |ts| > 0
    requires Selects(ts[1..], toRemove, rest, tail)
    ensures Selects(ts, toRemove, idx, (if Removed(ts[0], toRemove) then [] else [ts[0]]) + tail)
  {
    var drop := Removed(ts[0], toRemove);
    var kept := (if drop then [] else [ts[0]]) + tail;
    idx := if drop then Shift(rest) else [0] + Shift(rest);
    if drop {
      SelectsDropValues(ts, rest, tail);
    } else {
      SelectsKeepValues(ts, rest, tail);
    }
    SelectsConsOrder(rest, drop, idx);
    SelectsConsPositions(ts, toRemove, rest, tail, idx);
  }

  /** The values of the selection when the head is unset: every position
      moves up by one. */
  lemma SelectsDropValues(ts: seq<Token>, rest: seq<nat>, tail: seq<Token>)
    requires |ts| > 0
    requires |rest| == |tail|
    requires forall k :: 0 <= k < |rest| ==> rest[k] < |ts| - 1 && tail[k] == ts[1..][rest[k]]
    ensures forall k :: 0 <= k < |rest| ==> Shift(rest)[k] < |ts| && tail[k] == ts[Shift(rest)[k]]
  {
    forall k | 0 <= k < |rest| ensures Shift(rest)[k] < |ts| && tail[k] == ts[Shift(rest)[k]] {
      assert tail[k] == ts[1..][rest[k]];
    }
  }

  /** The values of the selection when the head is kept: position 0 comes
      first, then the moved-up positions of the tail. */
  lemma SelectsKeepValues(ts: seq<Token>, rest: seq<nat>, tail: seq<Token>)
    requires |ts| > 0
    requires |rest| == |tail|
    requires forall k :: 0 <= k < |rest| ==> rest[k] < |ts| - 1 && tail[k] == ts[1..][rest[k]]
    ensures forall k :: 0 <= k < |rest| + 1 ==> ([0] + Shift(rest))[k] < |ts| && ([ts[0]] + tail)[k] == ts[([0] + Shift(rest))[k]]
  {
    var idx := [0] + Shift(rest);
    var kept := [ts[0]] + tail;
    forall k | 0 <= k < |rest| + 1 ensures idx[k] < |ts| && kept[k] == ts[idx[k]] {
      if k > 0 {
        assert idx[k] == rest[k - 1] + 1;
        assert kept[k] == tail[k - 1] == ts[1..][rest[k - 1]];
      }
    }
  }

  lemma SelectsConsOrder(rest: seq<nat>, drop: bool, idx: seq<nat>)
    requires forall k, l :: 0 <= k < l < |rest| ==> rest[k] < rest[l]
    requires idx == if drop then Shift(rest) else [0] + Shift(rest)
    ensures forall k, l :: 0 <= k < l < |idx| ==> idx[k] < idx[l]
  {
    var shifted := Shift(rest);
    forall k, l | 0 <= k < l < |idx| ensures idx[k] < idx[l] {
      if !drop {
        assert idx[l] == shifted[l - 1];
        if k > 0 {
          assert idx[k] == shifted[k - 1];
        }
      }
    }
  }

  lemma SelectsConsPositions(ts: seq<Token>, toRemove: seq<string>, rest: seq<nat>, tail: seq<Token>, idx: seq<nat>)
    requires |ts| > 0
    requires Selects(ts[1..], toRemove, rest, tail)
    requires idx == if Removed(ts[0], toRemove) then Shift(rest) else [0] + Shift(rest)
    ensures forall i :: 0 <= i < |ts| ==> (i in idx <==> !Removed(ts[i], toRemove))
  {
    var shifted := Shift(rest);
    ShiftMembers(rest);
    forall i | 0 <= i < |ts| ensures i in idx <==> !Removed(ts[i], toRemove) {
      if i > 0 {
        assert ts[i] == ts[1..][i - 1];
        assert i in idx <==> i in shifted;
      }
    }
  }

  /** Every position moved up by one. */
  function Shift(idx: seq<nat>): (r: seq<nat>)
    ensures |r| == |idx|
    ensures forall k :: 0 <= k < |idx| ==> r[k] == idx[k] + 1
  {
    seq(|idx|, k requires 0 <= k < |idx| => idx[k] + 1)
  }

  lemma ShiftMembers(idx: seq<nat>)
    ensures forall i :: i in Shift(idx) <==> i >= 1 && i - 1 in idx
    ensures 0 !in Shift(idx)
  {
    var r := Shift(idx);
    forall i ensures i in r <==> i >= 1 && i - 1 in idx {
      if i in r {
        var k :| 0 <= k < |r| && r[k] == i;
      }
      if i >= 1 && i - 1 in idx {
        var k :| 0 <= k < |idx| && idx[k] == i - 1;
        assert r[k] == i;
      }
    }
  }

  /** Kept and dropped tokens partition the input; so the array result is
      as long as the input less the removed tokens. */
  lemma FilterPartition(ts: seq<Token>, toRemove: seq<string>)
    ensures multiset(Filter(ts, toRemove)) + multiset(Dropped(ts, toRemove)) == multiset(ts)
    ensures |Filter(ts, toRemove)| == |ts| - |Dropped(ts, toRemove)|
    ensures forall t :: t in Dropped(ts, toRemove) ==> Removed(t, toRemove)
  {
    PartitionMultiset(ts, toRemove);
    DroppedAreMatched(ts, toRemove);
    assert |multiset(Filter(ts, toRemove))| + |multiset(Dropped(ts, toRemove))| == |multiset(ts)|;
  }

  lemma {:induction false} PartitionMultiset(ts: seq<Token>, toRemove: seq<string>)
    ensures multiset(Filter(ts, toRemove)) + multiset(Dropped(ts, toRemove)) == multiset(ts)
    decreases |ts|
  {
    if |ts| > 0 {
      var t, rest := ts[0], ts[1..];
      PartitionMultiset(rest, toRemove);
      assert ts == [t] + rest;
      if Removed(t, toRemove) {
        assert Filter(ts, toRemove) == Filter(rest, toRemove);
        assert Dropped(ts, toRemove) == [t] + Dropped(rest, toRemove);
      } else {
        assert Filter(ts, toRemove) == [t] + Filter(rest, toRemove);
        assert Dropped(ts, toRemove) == Dropped(rest, toRemove);
      }
    }
  }

  lemma {:induction false} DroppedAreMatched(ts: seq<Token>, toRemove: seq<string>)
    ensures forall t :: t in Dropped(ts, toRemove) ==> Removed(t, toRemove)
    decreases |ts|
  {
    if |ts| > 0 {
      DroppedAreMatched(ts[1..], toRemove);
    }
  }

  /** A token no entry matches is kept; with no match anywhere, filtering is the identity. */
  lemma {:induction false} FilterNoMatch(ts: seq<Token>, toRemove: seq<string>)
    requires forall i :: 0 <= i < |ts| ==> !Removed(ts[i], toRemove)
    ensures Filter(ts, toRemove) == ts
    decreases |ts|
  {
    if |ts| > 0 {
      FilterNoMatch(ts[1..], toRemove);
      assert [ts[0]] + ts[1..] == ts;
    }
  }

  /** When every token is matched, nothing is kept. */
  lemma {:induction false} FilterAllMatch(ts: seq<Token>, toRemove: seq<string>)
    requires forall i :: 0 <= i < |ts| ==> Removed(ts[i], toRemove)
    ensures Filter(ts, toRemove) == []
    decreases |ts|
  {
    if |ts| > 0 {
      FilterAllMatch(ts[1..], toRemove);
    }
  }

  /** Filtering twice with the same entries removes nothing more. */
  lemma FilterIdempotent(ts: seq<Token>, toRemove: seq<string>)
    ensures Filter(Filter(ts, toRemove), toRemove) == Filter(ts, toRemove)
  {
    var r := Filter(ts, toRemove);
    FilterMembers(ts, toRemove);
    forall i | 0 <= i < |r| ensures !Removed(r[i], toRemove) {
      assert r[i] in r;
    }
    FilterNoMatch(r, toRemove);
  }

  /** Only which entries are listed matters, not their order or repetition. */
  lemma {:induction false} FilterEntriesAsSet(ts: seq<Token>, r1: seq<string>, r2: seq<string>)
    requires forall e :: e in r1 <==> e in r2
    ensures Filter(ts, r1) == Filter(ts, r2)
    decreases |ts|
  {
    if |ts| > 0 {
      FilterEntriesAsSet(ts[1..], r1, r2);
      if Removed(ts[0], r1) {
        var k :| 0 <= k < |r1| && StartsWith(MatchString(ts[0]), r1[k]);
        assert r1[k] in r2;
      }
      if Removed(ts[0], r2) {
        var k :| 0 <= k < |r2| && StartsWith(MatchString(ts[0]), r2[k]);
        assert r2[k] in r1;
      }
    }
  }

  /** Laravel's startsWith never matches an empty needle, so an empty
      entry in rulesToRemove removes nothing. */
  lemma EmptyEntryIgnored(t: Token, toRemove: seq<string>)
    ensures Removed(t, toRemove + [""]) <==> Removed(t, toRemove)
  {
    if Removed(t, toRemove) {
      var k :| 0 <= k < |toRemove| && StartsWith(MatchString(t), toRemove[k]);
      assert (toRemove + [""])[k] == toRemove[k];
    }
  }

  /** A plain rule is matched on its whole text, so its parameters go with
      its name: an entry that is a prefix of the name removes it whatever
      follows the name. */
  lemma ParametersRemovedWithName(name: string, params: string, toRemove: seq<string>, k: nat)
    requires k < |toRemove| && StartsWith(name, toRemove[k])
    ensures Removed(Plain(name + params), toRemove)
  {
    assert toRemove[k] <= name + params;
  }

  /** A rule object is matched only through its derived name: its
      constructor arguments never decide whether it is removed. */
  lemma ObjectMatchedByName(name: string, args1: seq<string>, args2: seq<string>, toRemove: seq<string>)
    ensures Removed(RuleObject(name, args1), toRemove) <==> Removed(RuleObject(name, args2), toRemove)
    ensures Removed(RuleObject(name, args1), toRemove) <==> Removed(Plain(name), toRemove)
  {
  }

  /** Exploding the string form and imploding its tokens again gives it back. */
  lemma TextsOfTokens(s: string)
    ensures AllPlain(Tokens(Str(s)))
    ensures Pipe.Join(Texts(Tokens(Str(s)))) == s
  {
    var parts := Pipe.Split(s);
    assert Texts(Plains(parts)) == parts;
    Pipe.JoinSplit(s);
  }

  /** If no entry matches any token, remove_rule returns its input
      unchanged, in either form. */
  lemma FilteredNoMatch(spec: Spec, toRemove: seq<string>)
    requires forall i :: 0 <= i < |Tokens(spec)| ==> !Removed(Tokens(spec)[i], toRemove)
    ensures Filtered(spec, toRemove) == spec
  {
    FilterNoMatch(Tokens(spec), toRemove);
    if spec.Str? {
      TextsOfTokens(spec.s);
    }
  }

  /** An empty rulesToRemove returns the rules unchanged, in either form. */
  lemma FilteredEmptyRemoval(spec: Spec)
    ensures Filtered(spec, []) == spec
  {
    FilteredNoMatch(spec, []);
  }

  /** When every token is matched, the result is '' or [] according to the form. */
  lemma FilteredAllRemoved(spec: Spec, toRemove: seq<string>)
    requires forall i :: 0 <= i < |Tokens(spec)| ==> Removed(Tokens(spec)[i], toRemove)
    ensures Filtered(spec, toRemove) == if spec.Str? then Str("") else Arr([])
  {
    FilterAllMatch(Tokens(spec), toRemove);
  }

  /** Empty input gives an empty result of the same form: '' explodes to
      [''], whose one empty piece no entry can match. */
  lemma FilteredEmptyInput(toRemove: seq<string>)
    ensures Filtered(Str(""), toRemove) == Str("")
    ensures Filtered(Arr([]), toRemove) == Arr([])
  {
    assert Tokens(Str("")) == [Plain("")];
    assert !Removed(Plain(""), toRemove);
    assert Filter([Plain("")], toRemove) == [Plain("")];
  }

  /** The array form of the result is the list of kept tokens, contiguously
      indexed, and as long as the input less the removed tokens. */
  lemma FilteredArray(ts: seq<Token>, toRemove: seq<string>)
    ensures Filtered(Arr(ts), toRemove).Arr?
    ensures Filtered(Arr(ts), toRemove).ts == Filter(ts, toRemove)
    ensures |Filtered(Arr(ts), toRemove).ts| == |ts| - |Dropped(ts, toRemove)|
  {
    FilterPartition(ts, toRemove);
  }

  /** The string form of the result, exploded again, is exactly the kept
      tokens (or one empty piece when none is kept). */
  lemma FilteredString(s: string, toRemove: seq<string>)
    ensures Filtered(Str(s), toRemove).Str?
    ensures var kept := Filter(Tokens(Str(s)), toRemove);
            Tokens(Filtered(Str(s), toRemove)) == if kept == [] then [Plain("")] else kept
  {
    var ts := Tokens(Str(s));
    var kept := Filter(ts, toRemove);
    FilterKeepsPlain(ts, toRemove);
    var texts := Texts(kept);
    FilterMembers(ts, toRemove);
    if kept != [] {
      forall i | 0 <= i < |texts| ensures '|' !in texts[i] {
        assert kept[i] in kept;
        var j :| 0 <= j < |ts| && ts[j] == kept[i];
        assert ts[j] == Plain(Pipe.Split(s)[j]);
      }
      Pipe.SplitJoin(texts);
      assert Plains(texts) == kept;
    }
  }

  /** remove_rule is idempotent in either form: a second call with the same
      entries changes nothing. */
  lemma FilteredIdempotent(spec: Spec, toRemove: seq<string>)
    ensures Filtered(Filtered(spec, toRemove), toRemove) == Filtered(spec, toRemove)
  {
    var once := Filtered(spec, toRemove);
    var kept := Filter(Tokens(spec), toRemove);
    if spec.Str? {
      FilteredString(spec.s, toRemove);
      FilterMembers(Tokens(spec), toRemove);
      if kept == [] {
        assert !Removed(Plain(""), toRemove);
      } else {
        forall i | 0 <= i < |kept| ensures !Removed(kept[i], toRemove) {
          assert kept[i] in kept;
        }
      }
      FilteredNoMatch(once, toRemove);
    } else {
      FilterIdempotent(Tokens(spec), toRemove);
    }
  }
}
