/** The rule strings of the string-form unit tests, imploded from their
    pieces. Each string is built left to right, one piece at a time. */
module PipeExamples {
  import Pipe

  /** implode of a head piece and at least one more. */
  lemma JoinCons(head: string, rest: seq<string>)
    requires |rest| >= 1
    ensures Pipe.Join([head] + rest) == head + "|" + Pipe.Join(rest)
  {
    assert ([head] + rest)[1..] == rest;
  }

  /** implode of at least one piece and a last one. */
  lemma {:induction false} JoinSnoc(init: seq<string>, last: string)
    requires |init| >= 1
    ensures Pipe.Join(init + [last]) == Pipe.Join(init) + "|" + last
    decreases |init|
  {
    assert (init + [last])[1..] == init[1..] + [last];
    if |init| > 1 {
      JoinSnoc(init[1..], last);
    }
  }

  lemma JoinsRequiredEmail()
    ensures Pipe.Join(["required", "email"]) == "required|email"
  {
    JoinCons("required", ["email"]);
  }

  lemma JoinsRequiredEmailUnique()
    ensures Pipe.Join(["required", "email", "unique:users"]) == "required|email|unique:users"
  {
    JoinSnoc(["required", "email"], "unique:users");
    assert ["required", "email"] + ["unique:users"] == ["required", "email", "unique:users"];
    JoinsRequiredEmail();
    assert "required|email" + "|" + "unique:users" == "required|email|unique:users";
  }

  lemma JoinsRequiredEmailUniqueMax()
    ensures Pipe.Join(["required", "email", "unique:users", "max:255"]) == "required|email|unique:users|max:255"
  {
    JoinSnoc(["required", "email", "unique:users"], "max:255");
    assert ["required", "email", "unique:users"] + ["max:255"] == ["required", "email", "unique:users", "max:255"];
    JoinsRequiredEmailUnique();
    RequiredEmailUniqueThenMax();
  }

  lemma RequiredEmailUniqueThenMax()
    ensures "required|email|unique:users" + "|" + "max:255" == "required|email|unique:users|max:255"
  {
  }

  lemma JoinsRequiredEmailUniqueMaxMin()
    ensures Pipe.Join(["required", "email", "unique:users", "max:255", "min:3"]) == "required|email|unique:users|max:255|min:3"
  {
    JoinSnoc(["required", "email", "unique:users", "max:255"], "min:3");
    assert ["required", "email", "unique:users", "max:255"] + ["min:3"] == ["required", "email", "unique:users", "max:255", "min:3"];
    JoinsRequiredEmailUniqueMax();
    RequiredEmailUniqueMaxThenMin();
  }

  lemma RequiredEmailUniqueMaxThenMin()
    ensures "required|email|unique:users|max:255" + "|" + "min:3" == "required|email|unique:users|max:255|min:3"
  {
  }

  lemma JoinsRequiredEmailMax()
    ensures Pipe.Join(["required", "email", "max:255"]) == "required|email|max:255"
  {
    JoinSnoc(["required", "email"], "max:255");
    assert ["required", "email"] + ["max:255"] == ["required", "email", "max:255"];
    JoinsRequiredEmail();
    assert "required|email" + "|" + "max:255" == "required|email|max:255";
  }

  lemma JoinsRequiredMax()
    ensures Pipe.Join(["required", "max:255"]) == "required|max:255"
  {
    JoinCons("required", ["max:255"]);
  }

  lemma JoinsRequiredUniqueParamsMax()
    ensures Pipe.Join(["required", "unique:users,email,1", "max:255"]) == "required|unique:users,email,1|max:255"
  {
    JoinCons("required", ["unique:users,email,1"]);
    JoinSnoc(["required", "unique:users,email,1"], "max:255");
    assert ["required", "unique:users,email,1"] + ["max:255"] == ["required", "unique:users,email,1", "max:255"];
    RequiredThenUniqueParams();
    RequiredUniqueParamsThenMax();
  }

  lemma RequiredThenUniqueParams()
    ensures "required" + "|" + "unique:users,email,1" == "required|unique:users,email,1"
  {
  }

  lemma RequiredUniqueParamsThenMax()
    ensures "required|unique:users,email,1" + "|" + "max:255" == "required|unique:users,email,1|max:255"
  {
  }

  lemma JoinsSometimesEmail()
    ensures Pipe.Join(["sometimes", "email"]) == "sometimes|email"
  {
    JoinCons("sometimes", ["email"]);
  }

  lemma JoinsNullableSometimesEmail()
    ensures Pipe.Join(["nullable", "sometimes", "email"]) == "nullable|sometimes|email"
  {
    JoinCons("nullable", ["sometimes"]);
    JoinSnoc(["nullable", "sometimes"], "email");
    assert ["nullable", "sometimes"] + ["email"] == ["nullable", "sometimes", "email"];
    assert "nullable" + "|" + "sometimes" == "nullable|sometimes";
    assert "nullable|sometimes" + "|" + "email" == "nullable|sometimes|email";
  }

  lemma JoinsRequiredBetween()
    ensures Pipe.Join(["required", "between:3,20"]) == "required|between:3,20"
  {
    JoinCons("required", ["between:3,20"]);
  }

  lemma JoinsComplexRules()
    ensures Pipe.Join(["required", "regex:/^[a-z]+$/", "unique:users,username,1,id", "between:3,20"])
         == "required|regex:/^[a-z]+$/|unique:users,username,1,id|between:3,20"
  {
    JoinCons("required", ["regex:/^[a-z]+$/"]);
    JoinSnoc(["required", "regex:/^[a-z]+$/"], "unique:users,username,1,id");
    assert ["required", "regex:/^[a-z]+$/"] + ["unique:users,username,1,id"]
        == ["required", "regex:/^[a-z]+$/", "unique:users,username,1,id"];
    JoinSnoc(["required", "regex:/^[a-z]+$/", "unique:users,username,1,id"], "between:3,20");
    assert ["required", "regex:/^[a-z]+$/", "unique:users,username,1,id"] + ["between:3,20"]
        == ["required", "regex:/^[a-z]+$/", "unique:users,username,1,id", "between:3,20"];
    RequiredThenRegex();
    RegexThenUnique();
    UniqueThenBetween();
  }

  lemma RequiredThenRegex()
    ensures "required" + "|" + "regex:/^[a-z]+$/" == "required|regex:/^[a-z]+$/"
  {
  }

  lemma RegexThenUnique()
    ensures "required|regex:/^[a-z]+$/" + "|" + "unique:users,username,1,id"
         == "required|regex:/^[a-z]+$/|unique:users,username,1,id"
  {
  }

  lemma UniqueThenBetween()
    ensures "required|regex:/^[a-z]+$/|unique:users,username,1,id" + "|" + "between:3,20"
         == "required|regex:/^[a-z]+$/|unique:users,username,1,id|between:3,20"
  {
  }

  lemma JoinsRequiredInEmail()
    ensures Pipe.Join(["required", "in:admin,user,moderator", "email"]) == "required|in:admin,user,moderator|email"
  {
    JoinCons("required", ["in:admin,user,moderator"]);
    JoinSnoc(["required", "in:admin,user,moderator"], "email");
    assert ["required", "in:admin,user,moderator"] + ["email"] == ["required", "in:admin,user,moderator", "email"];
    RequiredThenIn();
    RequiredInThenEmail();
  }

  lemma RequiredThenIn()
    ensures "required" + "|" + "in:admin,user,moderator" == "required|in:admin,user,moderator"
  {
  }

  lemma RequiredInThenEmail()
    ensures "required|in:admin,user,moderator" + "|" + "email" == "required|in:admin,user,moderator|email"
  {
  }
}

/** The unit tests of remove_rule, in the order of the test file, worked out
    against the model. */
module HelpersExamples {
  import PipeExamples
  import Pipe
  import opened Helpers

  // ---------------------------------------------------------------------
  // Prefix facts and kept-patterns of short token lists.
  // ---------------------------------------------------------------------

  /** A needle that differs from the haystack at position i, or is longer
      than it, is not a prefix of it. */
  lemma NoPrefixAt(haystack: string, needle: string, i: nat)
    requires i < |needle| && (i >= |haystack| || haystack[i] != needle[i])
    ensures !StartsWith(haystack, needle)
  {
    if |needle| <= |haystack| {
      assert haystack[..|needle|][i] == haystack[i];
    }
  }

  lemma DropBothOfTwo(a: Token, b: Token, r: seq<string>)
    requires Removed(a, r) && Removed(b, r)
    ensures Filter([a, b], r) == []
  {
    assert [a, b][1..] == [b];
    assert Filter([b], r) == [];
  }

  lemma DropFirstOfTwo(a: Token, b: Token, r: seq<string>)
    requires Removed(a, r) && !Removed(b, r)
    ensures Filter([a, b], r) == [b]
  {
    assert [a, b][1..] == [b];
    assert Filter([b], r) == [b];
  }

  lemma DropSecondOfTwo(a: Token, b: Token, r: seq<string>)
    requires !Removed(a, r) && Removed(b, r)
    ensures Filter([a, b], r) == [a]
  {
    assert [a, b][1..] == [b];
    assert Filter([b], r) == [];
  }

  lemma KeepAllOfThree(a: Token, b: Token, c: Token, r: seq<string>)
    requires !Removed(a, r) && !Removed(b, r) && !Removed(c, r)
    ensures Filter([a, b, c], r) == [a, b, c]
  {
    assert [a, b, c][1..] == [b, c];
    assert [b, c][1..] == [c];
    assert Filter([c], r) == [c];
    assert Filter([b, c], r) == [b, c];
  }

  lemma DropFirstOfThree(a: Token, b: Token, c: Token, r: seq<string>)
    requires Removed(a, r) && !Removed(b, r) && !Removed(c, r)
    ensures Filter([a, b, c], r) == [b, c]
  {
    assert [a, b, c][1..] == [b, c];
    assert [b, c][1..] == [c];
    assert Filter([c], r) == [c];
    assert Filter([b, c], r) == [b, c];
  }

  lemma DropMiddleOfThree(a: Token, b: Token, c: Token, r: seq<string>)
    requires !Removed(a, r) && Removed(b, r) && !Removed(c, r)
    ensures Filter([a, b, c], r) == [a, c]
  {
    assert [a, b, c][1..] == [b, c];
    assert [b, c][1..] == [c];
    assert Filter([c], r) == [c];
    assert Filter([b, c], r) == [c];
  }

  lemma DropLastOfThree(a: Token, b: Token, c: Token, r: seq<string>)
    requires !Removed(a, r) && !Removed(b, r) && Removed(c, r)
    ensures Filter([a, b, c], r) == [a, b]
  {
    assert [a, b, c][1..] == [b, c];
    assert [b, c][1..] == [c];
    assert Filter([c], r) == [];
    assert Filter([b, c], r) == [b];
  }

  lemma DropThirdOfFour(a: Token, b: Token, c: Token, d: Token, r: seq<string>)
    requires !Removed(a, r) && !Removed(b, r) && Removed(c, r) && !Removed(d, r)
    ensures Filter([a, b, c, d], r) == [a, b, d]
  {
    DropLastOfThree(a, b, c, r);
    FilterOne(d, r);
    FilterAppend([a, b, c], [d], r);
    assert [a, b, c] + [d] == [a, b, c, d];
  }

  lemma DropMiddleTwoOfFour(a: Token, b: Token, c: Token, d: Token, r: seq<string>)
    requires !Removed(a, r) && Removed(b, r) && Removed(c, r) && !Removed(d, r)
    ensures Filter([a, b, c, d], r) == [a, d]
  {
    DropSecondOfTwo(a, b, r);
    DropFirstOfTwo(c, d, r);
    FilterAppend([a, b], [c, d], r);
    assert [a, b] + [c, d] == [a, b, c, d];
  }

  lemma DropThirdAndFifthOfFive(a: Token, b: Token, c: Token, d: Token, e: Token, r: seq<string>)
    requires !Removed(a, r) && !Removed(b, r) && Removed(c, r) && !Removed(d, r) && Removed(e, r)
    ensures Filter([a, b, c, d, e], r) == [a, b, d]
  {
    DropLastOfThree(a, b, c, r);
    DropSecondOfTwo(d, e, r);
    FilterAppend([a, b, c], [d, e], r);
    assert [a, b, c] + [d, e] == [a, b, c, d, e];
  }

  lemma DropThirdAndFifthOfSix(a: Token, b: Token, c: Token, d: Token, e: Token, f: Token, r: seq<string>)
    requires !Removed(a, r) && !Removed(b, r) && Removed(c, r) && !Removed(d, r) && Removed(e, r) && !Removed(f, r)
    ensures Filter([a, b, c, d, e, f], r) == [a, b, d, f]
  {
    DropLastOfThree(a, b, c, r);
    DropMiddleOfThree(d, e, f, r);
    FilterAppend([a, b, c], [d, e, f], r);
    assert [a, b, c] + [d, e, f] == [a, b, c, d, e, f];
  }

  // ---------------------------------------------------------------------
  // The same patterns on the string form.
  // ---------------------------------------------------------------------

  /** The string form of a rule list whose pieces are known, and the test
      that keeps exactly the expected pieces. */
  lemma StringCase(parts: seq<string>, toRemove: seq<string>, expected: seq<string>)
    requires |parts| >= 1
    requires forall i :: 0 <= i < |parts| ==> '|' !in parts[i]
    requires Filter(Plains(parts), toRemove) == Plains(expected)
    ensures Filtered(Str(Pipe.Join(parts)), toRemove) == Str(Pipe.Join(expected))
  {
    Pipe.SplitJoin(parts);
    var kept := Filter(Plains(parts), toRemove);
    FilterKeepsPlain(Plains(parts), toRemove);
    assert Texts(kept) == expected;
  }

  lemma StringDropBothOfTwo(a: string, b: string, r: seq<string>)
    requires '|' !in a && '|' !in b
    requires Removed(Plain(a), r) && Removed(Plain(b), r)
    ensures Filtered(Str(Pipe.Join([a, b])), r) == Str("")
  {
    DropBothOfTwo(Plain(a), Plain(b), r);
    assert Plains([a, b]) == [Plain(a), Plain(b)];
    StringCase([a, b], r, []);
  }

  lemma StringKeepAllOfThree(a: string, b: string, c: string, r: seq<string>)
    requires '|' !in a && '|' !in b && '|' !in c
    requires !Removed(Plain(a), r) && !Removed(Plain(b), r) && !Removed(Plain(c), r)
    ensures Filtered(Str(Pipe.Join([a, b, c])), r) == Str(Pipe.Join([a, b, c]))
  {
    KeepAllOfThree(Plain(a), Plain(b), Plain(c), r);
    assert Plains([a, b, c]) == [Plain(a), Plain(b), Plain(c)];
    StringCase([a, b, c], r, [a, b, c]);
  }

  lemma StringDropFirstOfThree(a: string, b: string, c: string, r: seq<string>)
    requires '|' !in a && '|' !in b && '|' !in c
    requires Removed(Plain(a), r) && !Removed(Plain(b), r) && !Removed(Plain(c), r)
    ensures Filtered(Str(Pipe.Join([a, b, c])), r) == Str(Pipe.Join([b, c]))
  {
    DropFirstOfThree(Plain(a), Plain(b), Plain(c), r);
    assert Plains([a, b, c]) == [Plain(a), Plain(b), Plain(c)];
    assert Plains([b, c]) == [Plain(b), Plain(c)];
    StringCase([a, b, c], r, [b, c]);
  }

  lemma StringDropMiddleOfThree(a: string, b: string, c: string, r: seq<string>)
    requires '|' !in a && '|' !in b && '|' !in c
    requires !Removed(Plain(a), r) && Removed(Plain(b), r) && !Removed(Plain(c), r)
    ensures Filtered(Str(Pipe.Join([a, b, c])), r) == Str(Pipe.Join([a, c]))
  {
    DropMiddleOfThree(Plain(a), Plain(b), Plain(c), r);
    assert Plains([a, b, c]) == [Plain(a), Plain(b), Plain(c)];
    assert Plains([a, c]) == [Plain(a), Plain(c)];
    StringCase([a, b, c], r, [a, c]);
  }

  lemma StringDropLastOfThree(a: string, b: string, c: string, r: seq<string>)
    requires '|' !in a && '|' !in b && '|' !in c
    requires !Removed(Plain(a), r) && !Removed(Plain(b), r) && Removed(Plain(c), r)
    ensures Filtered(Str(Pipe.Join([a, b, c])), r) == Str(Pipe.Join([a, b]))
  {
    DropLastOfThree(Plain(a), Plain(b), Plain(c), r);
    assert Plains([a, b, c]) == [Plain(a), Plain(b), Plain(c)];
    assert Plains([a, b]) == [Plain(a), Plain(b)];
    StringCase([a, b, c], r, [a, b]);
  }

  lemma StringDropThirdOfFour(a: string, b: string, c: string, d: string, r: seq<string>)
    requires '|' !in a && '|' !in b && '|' !in c && '|' !in d
    requires !Removed(Plain(a), r) && !Removed(Plain(b), r) && Removed(Plain(c), r) && !Removed(Plain(d), r)
    ensures Filtered(Str(Pipe.Join([a, b, c, d])), r) == Str(Pipe.Join([a, b, d]))
  {
    DropThirdOfFour(Plain(a), Plain(b), Plain(c), Plain(d), r);
    assert Plains([a, b, c, d]) == [Plain(a), Plain(b), Plain(c), Plain(d)];
    assert Plains([a, b, d]) == [Plain(a), Plain(b), Plain(d)];
    StringCase([a, b, c, d], r, [a, b, d]);
  }

  lemma StringDropMiddleTwoOfFour(a: string, b: string, c: string, d: string, r: seq<string>)
    requires '|' !in a && '|' !in b && '|' !in c && '|' !in d
    requires !Removed(Plain(a), r) && Removed(Plain(b), r) && Removed(Plain(c), r) && !Removed(Plain(d), r)
    ensures Filtered(Str(Pipe.Join([a, b, c, d])), r) == Str(Pipe.Join([a, d]))
  {
    DropMiddleTwoOfFour(Plain(a), Plain(b), Plain(c), Plain(d), r);
    assert Plains([a, b, c, d]) == [Plain(a), Plain(b), Plain(c), Plain(d)];
    assert Plains([a, d]) == [Plain(a), Plain(d)];
    StringCase([a, b, c, d], r, [a, d]);
  }

  lemma StringDropThirdAndFifthOfFive(a: string, b: string, c: string, d: string, e: string, r: seq<string>)
    requires '|' !in a && '|' !in b && '|' !in c && '|' !in d && '|' !in e
    requires !Removed(Plain(a), r) && !Removed(Plain(b), r) && Removed(Plain(c), r) && !Removed(Plain(d), r) && Removed(Plain(e), r)
    ensures Filtered(Str(Pipe.Join([a, b, c, d, e])), r) == Str(Pipe.Join([a, b, d]))
  {
    DropThirdAndFifthOfFive(Plain(a), Plain(b), Plain(c), Plain(d), Plain(e), r);
    assert Plains([a, b, c, d, e]) == [Plain(a), Plain(b), Plain(c), Plain(d), Plain(e)];
    assert Plains([a, b, d]) == [Plain(a), Plain(b), Plain(d)];
    StringCase([a, b, c, d, e], r, [a, b, d]);
  }

  // ---------------------------------------------------------------------
  // The tests.
  // ---------------------------------------------------------------------

  /** Which rules of the multiple-removal tests "unique" and "min" remove. */
  lemma UniqueMinDecided()
    ensures !Removed(Plain("required"), ["unique", "min"])
    ensures !Removed(Plain("email"), ["unique", "min"])
    ensures Removed(Plain("unique:users"), ["unique", "min"])
    ensures !Removed(Plain("max:255"), ["unique", "min"])
    ensures Removed(Plain("min:3"), ["unique", "min"])
  {
    var r := ["unique", "min"];
    assert StartsWith("unique:users", r[0]);
    assert StartsWith("min:3", r[1]);
    NoPrefixAt("required", "unique", 0);
    NoPrefixAt("required", "min", 0);
    NoPrefixAt("email", "unique", 0);
    NoPrefixAt("email", "min", 0);
    NoPrefixAt("max:255", "unique", 0);
    NoPrefixAt("max:255", "min", 1);
  }

  lemma UniqueMinKeepsConfirmed()
    ensures !Removed(Plain("confirmed"), ["unique", "min"])
  {
    NoPrefixAt("confirmed", "unique", 0);
    NoPrefixAt("confirmed", "min", 0);
  }

  /** The rules of the multiple-removal tests hold no pipe of their own. */
  lemma UniqueMinPipeFree()
    ensures '|' !in "required" && '|' !in "email" && '|' !in "unique:users"
    ensures '|' !in "max:255" && '|' !in "min:3"
  {
  }

  lemma RemovesSingleRuleFromString()
    ensures Filtered(Str(Pipe.Join(["required", "email", "unique:users", "max:255"])), ["unique"])
         == Str(Pipe.Join(["required", "email", "max:255"]))
    ensures Filtered(Str("required|email|unique:users|max:255"), ["unique"]) == Str("required|email|max:255")
  {
    var r := ["unique"];
    assert StartsWith("unique:users", r[0]);
    NoPrefixAt("required", "unique", 0);
    NoPrefixAt("email", "unique", 0);
    NoPrefixAt("max:255", "unique", 0);
    StringDropThirdOfFour("required", "email", "unique:users", "max:255", r);
    PipeExamples.JoinsRequiredEmailUniqueMax();
    PipeExamples.JoinsRequiredEmailMax();
  }

  lemma RemovesMultipleRulesFromString()
    ensures Filtered(Str(Pipe.Join(["required", "email", "unique:users", "max:255", "min:3"])), ["unique", "min"])
         == Str(Pipe.Join(["required", "email", "max:255"]))
    ensures Filtered(Str("required|email|unique:users|max:255|min:3"), ["unique", "min"]) == Str("required|email|max:255")
  {
    var r := ["unique", "min"];
    UniqueMinDecided();
    UniqueMinPipeFree();
    StringDropThirdAndFifthOfFive("required", "email", "unique:users", "max:255", "min:3", r);
    PipeExamples.JoinsRequiredEmailUniqueMaxMin();
    PipeExamples.JoinsRequiredEmailMax();
  }

  lemma RemovesSingleRuleFromArray()
    ensures Filtered(Arr([Plain("required"), Plain("email"), Plain("unique:users"), Plain("max:255")]), ["unique"])
         == Arr([Plain("required"), Plain("email"), Plain("max:255")])
  {
    var r := ["unique"];
    assert StartsWith("unique:users", r[0]);
    NoPrefixAt("required", "unique", 0);
    NoPrefixAt("email", "unique", 0);
    NoPrefixAt("max:255", "unique", 0);
    DropThirdOfFour(Plain("required"), Plain("email"), Plain("unique:users"), Plain("max:255"), r);
  }

  lemma RemovesMultipleRulesFromArray()
    ensures Filtered(Arr([Plain("required"), Plain("email"), Plain("unique:users"), Plain("max:255"), Plain("min:3")]), ["unique", "min"])
         == Arr([Plain("required"), Plain("email"), Plain("max:255")])
  {
    var r := ["unique", "min"];
    UniqueMinDecided();
    DropThirdAndFifthOfFive(Plain("required"), Plain("email"), Plain("unique:users"), Plain("max:255"), Plain("min:3"), r);
  }

  /** Parameters go with the rule: "unique" removes "unique:users,email,1". */
  lemma RemovesRuleWithParameters()
    ensures Filtered(Str(Pipe.Join(["required", "unique:users,email,1", "max:255"])), ["unique"])
         == Str(Pipe.Join(["required", "max:255"]))
    ensures Filtered(Str("required|unique:users,email,1|max:255"), ["unique"]) == Str("required|max:255")
  {
    var r := ["unique"];
    assert StartsWith("unique:users,email,1", r[0]);
    NoPrefixAt("required", "unique", 0);
    NoPrefixAt("max:255", "unique", 0);
    StringDropMiddleOfThree("required", "unique:users,email,1", "max:255", r);
    PipeExamples.JoinsRequiredUniqueParamsMax();
    PipeExamples.JoinsRequiredMax();
  }

  /** A Unique rule object is removed through its derived name "unique". */
  lemma RemovesObjectRules()
    ensures Filtered(Arr([Plain("required"), RuleObject("unique", ["users", "email"]), Plain("max:255")]), ["unique"])
         == Arr([Plain("required"), Plain("max:255")])
  {
    var r := ["unique"];
    assert StartsWith("unique", r[0]);
    NoPrefixAt("required", "unique", 0);
    NoPrefixAt("max:255", "unique", 0);
    DropMiddleOfThree(Plain("required"), RuleObject("unique", ["users", "email"]), Plain("max:255"), r);
  }

  /** Removing every rule of a string leaves the empty string. */
  lemma EmptyStringWhenAllRemoved()
    ensures Filtered(Str(Pipe.Join(["required", "email"])), ["required", "email"]) == Str("")
    ensures Filtered(Str("required|email"), ["required", "email"]) == Str("")
  {
    var r := ["required", "email"];
    assert StartsWith("required", r[0]);
    assert StartsWith("email", r[1]);
    StringDropBothOfTwo("required", "email", r);
    PipeExamples.JoinsRequiredEmail();
  }

  /** Removing every rule of an array leaves the empty array. */
  lemma EmptyArrayWhenAllRemoved()
    ensures Filtered(Arr([Plain("required"), Plain("email")]), ["required", "email"]) == Arr([])
  {
    var r := ["required", "email"];
    assert StartsWith("required", r[0]);
    assert StartsWith("email", r[1]);
    DropBothOfTwo(Plain("required"), Plain("email"), r);
  }

  /** With no entry matching, the string comes back as it was. */
  lemma OriginalStringWhenNoMatch()
    ensures Filtered(Str(Pipe.Join(["required", "email", "max:255"])), ["unique", "min"])
         == Str(Pipe.Join(["required", "email", "max:255"]))
    ensures Filtered(Str("required|email|max:255"), ["unique", "min"]) == Str("required|email|max:255")
  {
    var r := ["unique", "min"];
    NoPrefixAt("required", "unique", 0);
    NoPrefixAt("required", "min", 0);
    NoPrefixAt("email", "unique", 0);
    NoPrefixAt("email", "min", 0);
    NoPrefixAt("max:255", "unique", 0);
    NoPrefixAt("max:255", "min", 1);
    StringKeepAllOfThree("required", "email", "max:255", r);
    PipeExamples.JoinsRequiredEmailMax();
  }

  /** With no entry matching, the array comes back as it was. */
  lemma OriginalArrayWhenNoMatch()
    ensures Filtered(Arr([Plain("required"), Plain("email"), Plain("max:255")]), ["unique", "min"])
         == Arr([Plain("required"), Plain("email"), Plain("max:255")])
  {
    var r := ["unique", "min"];
    NoPrefixAt("required", "unique", 0);
    NoPrefixAt("required", "min", 0);
    NoPrefixAt("email", "unique", 0);
    NoPrefixAt("email", "min", 0);
    NoPrefixAt("max:255", "unique", 0);
    NoPrefixAt("max:255", "min", 1);
    KeepAllOfThree(Plain("required"), Plain("email"), Plain("max:255"), r);
  }

  /** An empty list of rules to remove leaves the string as it was. */
  lemma HandlesEmptyRulesToRemove()
    ensures Filtered(Str("required|email|max:255"), []) == Str("required|email|max:255")
  {
    FilteredEmptyRemoval(Str("required|email|max:255"));
  }

  /** The empty rule string stays empty. */
  lemma HandlesEmptyRulesString()
    ensures Filtered(Str(""), ["required"]) == Str("")
  {
    FilteredEmptyInput(["required"]);
  }

  /** The empty rule array stays empty. */
  lemma HandlesEmptyRulesArray()
    ensures Filtered(Arr([]), ["required"]) == Arr([])
  {
    FilteredEmptyInput(["required"]);
  }

  /** "max" removes "max:255" from the string form. */
  lemma RemovesRulesMatchingStart()
    ensures Filtered(Str(Pipe.Join(["required", "email", "max:255"])), ["max"])
         == Str(Pipe.Join(["required", "email"]))
    ensures Filtered(Str("required|email|max:255"), ["max"]) == Str("required|email")
  {
    var r := ["max"];
    assert StartsWith("max:255", r[0]);
    NoPrefixAt("required", "max", 0);
    NoPrefixAt("email", "max", 0);
    StringDropLastOfThree("required", "email", "max:255", r);
    PipeExamples.JoinsRequiredEmailMax();
    PipeExamples.JoinsRequiredEmail();
  }

  /** The kept rules keep their order. */
  lemma PreservesOrderOfRemainingRules()
    ensures Filtered(Arr([Plain("required"), Plain("email"), Plain("unique:users"), Plain("max:255"), Plain("min:3"), Plain("confirmed")]), ["unique", "min"])
         == Arr([Plain("required"), Plain("email"), Plain("max:255"), Plain("confirmed")])
  {
    var r := ["unique", "min"];
    UniqueMinDecided();
    UniqueMinKeepsConfirmed();
    DropThirdAndFifthOfSix(Plain("required"), Plain("email"), Plain("unique:users"), Plain("max:255"), Plain("min:3"), Plain("confirmed"), r);
  }

  lemma RemovesNullableRule()
    ensures Filtered(Str(Pipe.Join(["nullable", "sometimes", "email"])), ["nullable"])
         == Str(Pipe.Join(["sometimes", "email"]))
    ensures Filtered(Str("nullable|sometimes|email"), ["nullable"]) == Str("sometimes|email")
  {
    var r := ["nullable"];
    assert StartsWith("nullable", r[0]);
    NoPrefixAt("sometimes", "nullable", 0);
    NoPrefixAt("email", "nullable", 0);
    StringDropFirstOfThree("nullable", "sometimes", "email", r);
    PipeExamples.JoinsNullableSometimesEmail();
    PipeExamples.JoinsSometimesEmail();
  }

  lemma RemovesSometimesRule()
    ensures Filtered(Arr([Plain("sometimes"), Plain("required"), Plain("email")]), ["sometimes"])
         == Arr([Plain("required"), Plain("email")])
  {
    var r := ["sometimes"];
    assert StartsWith("sometimes", r[0]);
    NoPrefixAt("required", "sometimes", 0);
    NoPrefixAt("email", "sometimes", 0);
    DropFirstOfThree(Plain("sometimes"), Plain("required"), Plain("email"), r);
  }

  /** Rules whose parameters hold commas, slashes and regex syntax. */
  lemma HandlesComplexValidationRules()
    ensures Filtered(Str(Pipe.Join(["required", "regex:/^[a-z]+$/", "unique:users,username,1,id", "between:3,20"])), ["unique", "regex"])
         == Str(Pipe.Join(["required", "between:3,20"]))
    ensures Filtered(Str("required|regex:/^[a-z]+$/|unique:users,username,1,id|between:3,20"), ["unique", "regex"])
         == Str("required|between:3,20")
  {
    var r := ["unique", "regex"];
    ComplexRulesDecided();
    ComplexRulesPipeFree();
    StringDropMiddleTwoOfFour("required", "regex:/^[a-z]+$/", "unique:users,username,1,id", "between:3,20", r);
    PipeExamples.JoinsComplexRules();
    PipeExamples.JoinsRequiredBetween();
  }

  /** Which rules of the complex test "unique" and "regex" remove. */
  lemma ComplexRulesDecided()
    ensures !Removed(Plain("required"), ["unique", "regex"])
    ensures Removed(Plain("regex:/^[a-z]+$/"), ["unique", "regex"])
    ensures Removed(Plain("unique:users,username,1,id"), ["unique", "regex"])
    ensures !Removed(Plain("between:3,20"), ["unique", "regex"])
  {
    var r := ["unique", "regex"];
    assert StartsWith("regex:/^[a-z]+$/", r[1]);
    assert StartsWith("unique:users,username,1,id", r[0]);
    NoPrefixAt("required", "unique", 0);
    NoPrefixAt("required", "regex", 2);
    NoPrefixAt("between:3,20", "unique", 0);
    NoPrefixAt("between:3,20", "regex", 0);
  }

  /** The rules of the complex test hold no pipe of their own. */
  lemma ComplexRulesPipeFree()
    ensures '|' !in "required" && '|' !in "regex:/^[a-z]+$/"
    ensures '|' !in "unique:users,username,1,id" && '|' !in "between:3,20"
  {
  }

  lemma RemovesInRuleWithMultipleValues()
    ensures Filtered(Str(Pipe.Join(["required", "in:admin,user,moderator", "email"])), ["in"])
         == Str(Pipe.Join(["required", "email"]))
    ensures Filtered(Str("required|in:admin,user,moderator|email"), ["in"]) == Str("required|email")
  {
    var r := ["in"];
    assert StartsWith("in:admin,user,moderator", r[0]);
    NoPrefixAt("required", "in", 0);
    NoPrefixAt("email", "in", 0);
    StringDropMiddleOfThree("required", "in:admin,user,moderator", "email", r);
    PipeExamples.JoinsRequiredInEmail();
    PipeExamples.JoinsRequiredEmail();
  }

  /** After a removal the array is re-indexed: two entries, at 0 and 1. */
  lemma MaintainsArrayIndexIntegrity()
    ensures var out := Filtered(Arr([Plain("required"), Plain("email"), Plain("unique:users")]), ["email"]);
            out.Arr? && |out.ts| == 2 && out.ts[0] == Plain("required") && out.ts[1] == Plain("unique:users")
  {
    var r := ["email"];
    assert StartsWith("email", r[0]);
    NoPrefixAt("required", "email", 0);
    NoPrefixAt("unique:users", "email", 0);
    DropMiddleOfThree(Plain("required"), Plain("email"), Plain("unique:users"), r);
  }

  /** Mixed plain rules and a rule object, two entries to remove. */
  lemma HandlesMixedRuleFormatsInArray()
    ensures Filtered(Arr([Plain("required"), Plain("email"), RuleObject("unique", ["users"]), Plain("max:255"), Plain("min:3")]), ["unique", "min"])
         == Arr([Plain("required"), Plain("email"), Plain("max:255")])
  {
    var r := ["unique", "min"];
    assert StartsWith("unique", r[0]);
    assert StartsWith("min:3", r[1]);
    NoPrefixAt("required", "unique", 0);
    NoPrefixAt("required", "min", 0);
    NoPrefixAt("email", "unique", 0);
    NoPrefixAt("email", "min", 0);
    NoPrefixAt("max:255", "unique", 0);
    NoPrefixAt("max:255", "min", 1);
    DropThirdAndFifthOfFive(Plain("required"), Plain("email"), RuleObject("unique", ["users"]), Plain("max:255"), Plain("min:3"), r);
  }

  /** Matching is a case-sensitive prefix test: "max" removes "maximum:1"
      but not "Max:255". */
  lemma PrefixMatchIsLooseAndCaseSensitive()
    ensures Removed(Plain("maximum:1"), ["max"])
    ensures !Removed(Plain("Max:255"), ["max"])
  {
    assert StartsWith("maximum:1", ["max"][0]);
    NoPrefixAt("Max:255", "max", 0);
  }
}
