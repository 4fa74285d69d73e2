# laravel-helpers: rule removal and the mobile-number rule, in Dafny

This project models the two pieces of logic in the `laravel-helpers` package:

- `remove_rule($attributeRules, $rulesToRemove)`, which drops validation rules from
  an attribute's rule list. The rule list is either a pipe-delimited
  string (`'required|email|unique:users'`) or an array of plain rule strings
  and rule objects (`['required', new Unique('users')]`). A rule is dropped
  when its match string starts with an entry of `$rulesToRemove`. For a plain
  rule the match string is its whole text, parameters included. For a rule
  object it is the snake-cased basename of its class. The result has the
  input's form, and the kept rules keep their order and are indexed from 0.
- `MobileNumberRule::validate`, which fails once with a fixed message unless
  the value matches `^(\+\d{1,4}\d{10})$`.

Files and modules:

- `pipe.dfy`, module `Pipe`: PHP's `explode('|', …)` and `implode('|', …)`
  (`Split`, `Join`) and the facts that make them inverse to each other.
- `helpers.dfy`, module `Helpers`: the token and rule-list datatypes, the
  specification function `Filter` (kept tokens) with `Filtered` (the whole
  result in the input's form), and the method `RemoveRule`. `RemoveRule`
  follows the source step by step. The PHP array is a `map<nat, Token>`
  from which `unset` removes keys. The outer `for` loop walks the tokens,
  and the inner `for` loop walks the removal entries and stops at the first
  match with `break`. `array_values` is the function `ArrayValues`. The
  method is proved equal to `Filtered`, and the properties are lemmas about
  `Filter` and `Filtered`.
- `helpers_examples.dfy`, modules `PipeExamples` and `HelpersExamples`: each
  of the 21 unit tests of `tests/Unit/HelpersTest.php`, worked out against the
  model.
- `mobile_number_rule.dfy`, module `MobileNumberRule`: the pattern as the
  predicate `IsMobile`, the method `Validate` that returns the messages
  passed to `$fail`, and a closed form of the pattern with its consequences.

Points of the code's behaviour worth noting:

- A plain rule is matched on its whole text, parameters included
  (src/helpers.php:23), not on its name before `:`. So the entry
  `unique:users` removes `unique:users,email,1`. The model matches on the
  whole text (`MatchString`).
- A test at `tests/Unit/HelpersTest.php:131` is named as if matching were
  case-insensitive, but its input has no upper-case rule
  (`HelpersExamples.RemovesRulesMatchingStart`). The code is case-sensitive,
  and so is the model (`HelpersExamples.PrefixMatchIsLooseAndCaseSensitive`).
- PCRE's `$` without the `D` modifier also matches before one final newline.
  So `"+923001234567\n"` passes the rule, and the same value with two
  newlines does not. `IsMobile` models this
  (`MobileNumberRule.AcceptsOneTrailingNewline`).

## Model

| member | source | states |
|---|---|---|
| `Pipe.Split` | src/helpers.php:17 | explode always yields at least one piece, and no piece contains the delimiter |
| `Pipe.SplitLength` | src/helpers.php:17 | explode yields one piece more than the string has pipes |
| `Pipe.JoinSplit` | src/helpers.php:17-40 | implode undoes explode on every string |
| `Pipe.SplitJoin` | src/helpers.php:17-40 | explode undoes implode on every non-empty list of pipe-free pieces |
| `Pipe.Join` | src/helpers.php:40 | implode on the pipe delimiter: the pieces with one delimiter between neighbours; `JoinSplit` and `SplitJoin` prove it inverse to `Split` |
| `Helpers.Tokens` | src/helpers.php:17 | the token list the loop walks: the exploded string (never empty, all plain) or the array itself |
| `Helpers.MatchString` | src/helpers.php:23 | the string a token is matched on: the whole text of a plain rule, or the derived name of a rule object |
| `Helpers.StartsWith` | src/helpers.php:27 | Str::startsWith for one needle: false for an empty needle, otherwise a case-sensitive prefix test |
| `Helpers.Removed` | src/helpers.php:26-31 | a token is unset exactly when some entry of `$rulesToRemove` is a non-empty prefix of its match string |
| `Helpers.ShorterEntryRemovesMore` | src/helpers.php:27 | an entry that is a prefix of another entry matches every rule the longer one matches, so `min` also removes what `min:5` removes |
| `Helpers.Filter` | src/helpers.php:20-33 | the kept tokens in input order; never longer than the input (the full characterisation is `FilterSelects`) |
| `Helpers.ArrayValues` | src/helpers.php:36 | array_values: the values at keys 0 to n-1 still present, in key order; no longer than n, each one a value of the list |
| `Helpers.UnsetStep` | src/helpers.php:26-31 | one pass of the inner loop, ended by `break` at the first matching entry or by running out of entries, unsets the key exactly when some entry matches the token |
| `Helpers.UnsetIfMatched` | src/helpers.php:26-31 | the inner loop tries the entries in order and stops at the first match; the key is unset exactly when some entry matches, and nothing else in the array changes |
| `Helpers.RemoveRule` | src/helpers.php:14-42 | the nested loops with first-match `break`, the unsets and the re-indexing give exactly `Filtered` of the input, in the input's form |
| `Helpers.Filtered` | src/helpers.php:39-41 | a string in gives a string out, an array in gives an array out |
| `Helpers.ArrayValuesIsFilter` | src/helpers.php:36 | array_values on the list left by the unsets is the filtered token list, indexed from 0 |
| `Helpers.FilterMembers` | src/helpers.php:20-33 | every kept token is an input token that no entry matches |
| `Helpers.FilterSelects` | src/helpers.php:20-36 | the result lists, in increasing input order, exactly the input tokens that no entry matches |
| `Helpers.FilterPartition` | src/helpers.php:28-36 | kept and dropped tokens partition the input as a multiset; the result is as long as the input less the dropped tokens, and every dropped token was matched |
| `Helpers.PartitionMultiset` | src/helpers.php:28-36 | every input token is either kept or dropped, never both: the two lists together are the input as a multiset |
| `Helpers.DroppedAreMatched` | src/helpers.php:27-28 | every dropped token is matched by some entry |
| `Helpers.FilterNoMatch` | src/helpers.php:27 | if no entry matches any token, filtering returns the tokens unchanged |
| `Helpers.FilterAllMatch` | src/helpers.php:28 | if every token is matched, nothing is kept |
| `Helpers.FilterIdempotent` | src/helpers.php:20-36 | filtering a second time with the same entries removes nothing more |
| `Helpers.FilterEntriesAsSet` | src/helpers.php:26-31 | lists of entries with the same members give the same result: the order and repetition of `$rulesToRemove` do not matter |
| `Helpers.EmptyEntryIgnored` | src/helpers.php:27 | an empty entry matches nothing, because Str::startsWith never matches an empty needle |
| `Helpers.ParametersRemovedWithName` | src/helpers.php:23-27 | an entry that is a prefix of a plain rule's name removes the rule whatever parameters follow |
| `Helpers.ObjectMatchedByName` | src/helpers.php:23 | a rule object is matched only through its derived name; its constructor arguments never matter |
| `Helpers.TextsOfTokens` | src/helpers.php:17-40 | exploding a rule string and imploding its tokens gives the string back |
| `Helpers.FilteredNoMatch` | src/helpers.php:26-27 | if no entry matches any token, remove_rule returns its input unchanged, in either form |
| `Helpers.FilteredEmptyRemoval` | src/helpers.php:26 | an empty `$rulesToRemove` returns the rules unchanged, in either form |
| `Helpers.FilteredAllRemoved` | src/helpers.php:39-41 | when every token is matched the result is `''` for a string and `[]` for an array |
| `Helpers.FilteredEmptyInput` | src/helpers.php:17 | `''` gives `''` (it explodes to one empty piece that nothing matches) and `[]` gives `[]` |
| `Helpers.FilteredArray` | src/helpers.php:36-41 | the array result is the kept tokens, and its length is the input length less the removed tokens |
| `Helpers.FilteredString` | src/helpers.php:39-40 | the string result, exploded again, is exactly the kept tokens, or one empty piece when none is kept |
| `Helpers.FilteredIdempotent` | src/helpers.php:14-42 | a second remove_rule with the same entries changes nothing, in either form |
| `HelpersExamples.RemovesSingleRuleFromString` | tests/Unit/HelpersTest.php:12-18 | the test's string of `required`, `email`, `unique:users`, `max:255` without `unique` gives the string of `required`, `email`, `max:255`, stated both as imploded pieces and as the test's own literals |
| `HelpersExamples.RemovesMultipleRulesFromString` | tests/Unit/HelpersTest.php:21-27 | removing `unique` and `min` from the test's string of `required`, `email`, `unique:users`, `max:255`, `min:3` gives the string of `required`, `email`, `max:255`, stated as imploded pieces and on the test's own literals |
| `HelpersExamples.RemovesSingleRuleFromArray` | tests/Unit/HelpersTest.php:30-36 | removing `unique` from four array rules keeps `required`, `email`, `max:255` |
| `HelpersExamples.RemovesMultipleRulesFromArray` | tests/Unit/HelpersTest.php:39-45 | removing `unique` and `min` from five array rules keeps `required`, `email`, `max:255` |
| `HelpersExamples.RemovesRuleWithParameters` | tests/Unit/HelpersTest.php:48-54 | `unique` removes `unique:users,email,1` together with its parameters, stated also on the test's own literal strings |
| `HelpersExamples.RemovesObjectRules` | tests/Unit/HelpersTest.php:57-65 | a `Unique` object is removed by the entry `unique` |
| `HelpersExamples.EmptyStringWhenAllRemoved` | tests/Unit/HelpersTest.php:68-74 | removing every rule of the test's string `required`, `email` gives `''`, stated also on the test's own literal string |
| `HelpersExamples.EmptyArrayWhenAllRemoved` | tests/Unit/HelpersTest.php:77-83 | removing both rules of `['required', 'email']` gives `[]` |
| `HelpersExamples.OriginalStringWhenNoMatch` | tests/Unit/HelpersTest.php:86-92 | `unique` and `min` match nothing in the test's string of `required`, `email`, `max:255`, which comes back unchanged |
| `HelpersExamples.OriginalArrayWhenNoMatch` | tests/Unit/HelpersTest.php:95-101 | `unique` and `min` match nothing in `['required', 'email', 'max:255']`, which comes back unchanged |
| `HelpersExamples.HandlesEmptyRulesToRemove` | tests/Unit/HelpersTest.php:104-110 | an empty `$rulesToRemove` returns the test's rule string unchanged |
| `HelpersExamples.HandlesEmptyRulesString` | tests/Unit/HelpersTest.php:113-119 | `''` with the entry `required` gives `''` |
| `HelpersExamples.HandlesEmptyRulesArray` | tests/Unit/HelpersTest.php:122-128 | `[]` with the entry `required` gives `[]` |
| `HelpersExamples.RemovesRulesMatchingStart` | tests/Unit/HelpersTest.php:131-137 | `max` removes `max:255` from the test's string, leaving the string of `required`, `email` |
| `HelpersExamples.PreservesOrderOfRemainingRules` | tests/Unit/HelpersTest.php:140-146 | removing `unique` and `min` from six array rules keeps `required`, `email`, `max:255`, `confirmed`, in that order |
| `HelpersExamples.RemovesNullableRule` | tests/Unit/HelpersTest.php:149-155 | `nullable` removed from the test's string of `nullable`, `sometimes`, `email` leaves the string of `sometimes`, `email` |
| `HelpersExamples.RemovesSometimesRule` | tests/Unit/HelpersTest.php:158-164 | `sometimes` removed from `['sometimes', 'required', 'email']` leaves `['required', 'email']` |
| `HelpersExamples.HandlesComplexValidationRules` | tests/Unit/HelpersTest.php:167-173 | `unique` and `regex` remove the regex rule and the four-parameter unique rule from the test's string, leaving the string of `required`, `between:3,20` |
| `HelpersExamples.RemovesInRuleWithMultipleValues` | tests/Unit/HelpersTest.php:176-182 | `in` removes `in:admin,user,moderator` from the test's string, leaving the string of `required`, `email` |
| `HelpersExamples.MaintainsArrayIndexIntegrity` | tests/Unit/HelpersTest.php:185-194 | after a removal the array has exactly the keys 0 and 1 |
| `HelpersExamples.HandlesMixedRuleFormatsInArray` | tests/Unit/HelpersTest.php:197-204 | plain rules and a rule object mixed: three rules are kept, in order |
| `HelpersExamples.PrefixMatchIsLooseAndCaseSensitive` | src/helpers.php:27 | `max` removes `maximum:1` but not `Max:255` |
| `MobileNumberRule.IsMobile` | src/Rules/MobileNumberRule.php:21 | the pattern `^(\+\d{1,4}\d{10})$`: `+`, a country code of one to four ASCII digits and ten more digits, ending at the end of the value or before one final newline |
| `MobileNumberRule.IsDigit` | src/Rules/MobileNumberRule.php:21 | PCRE `\d` without the `u` modifier: the ASCII digits `0` to `9` only |
| `MobileNumberRule.MatchesGroup` | src/Rules/MobileNumberRule.php:21 | the group `\+\d{1,4}\d{10}` covering a whole string: `+`, a country code of one to four digits, then exactly ten digits |
| `MobileNumberRule.Validate` | src/Rules/MobileNumberRule.php:15-24 | `$fail` is called exactly once, with the fixed message, when the value does not match, and not at all when it does |
| `MobileNumberRule.GroupClosedForm` | src/Rules/MobileNumberRule.php:21 | `\+\d{1,4}\d{10}` covers a string exactly when it is `+` and 11 to 14 ASCII digits |
| `MobileNumberRule.IsMobileClosedForm` | src/Rules/MobileNumberRule.php:21 | a value is accepted exactly when it is `+` and 11 to 14 ASCII digits, optionally followed by one newline |
| `MobileNumberRule.RejectsWithoutPlus` | src/Rules/MobileNumberRule.php:18-21 | a value that does not begin with `+` is rejected |
| `MobileNumberRule.DigitCountDecides` | src/Rules/MobileNumberRule.php:19-21 | for `+` and digits only, 11 to 14 digits pass and any other count fails |
| `MobileNumberRule.RejectsNonDigit` | src/Rules/MobileNumberRule.php:21 | any non-digit after the `+` rejects the value, except one final newline |
| `MobileNumberRule.AcceptsOneTrailingNewline` | src/Rules/MobileNumberRule.php:21 | `+` and 11 to 14 ASCII digits is accepted both bare and with one newline appended, and rejected with two |
| `MobileNumberRule.SampleValues` | src/Rules/MobileNumberRule.php:17-21 | `+923001234567` passes; `923001234567` and `+3001234567` fail |

## Left out

- `Str::snake(class_basename($rule))` (src/helpers.php:23) is a framework call. A rule object carries its derived name (`RuleObject.snakeName`).
- Array entries of `$attributeRules` that are neither strings nor objects, such as integers or null, are outside the documented use (src/helpers.php:10). The model has no token for them.
- Entries of `$rulesToRemove` that are not strings are outside the documented "Array of rule names" (src/helpers.php:11), and `seq<string>` has no form for them. Str::startsWith would cast an integer with `(string) $needle`, turn null into `''`, which never matches, and treat a nested array as several needles.
- Array keys: an input array with string or non-consecutive keys is taken as the list of its values in order. The model keeps no keys. `array_values` drops them in PHP too.
- The `function_exists` guard (src/helpers.php:5) only registers the helper. It has no behaviour to model.
- Argument coercion: src/helpers.php does not declare `strict_types`, so a caller in coercive mode that passes an int, float, bool or Stringable object as `$attributeRules` has it converted to a string before the body runs; the model covers that case through `Str` of the converted string, and leaves the conversion itself out. Null, other objects, and any non-string-or-array value from a caller in strict mode raise a TypeError before the body runs, which the `Spec` datatype rules out by construction.
- The `$fail` closure and the message translation (src/Rules/MobileNumberRule.php:22) belong to the framework. `Validate` returns the list of messages it would pass to `$fail`, untranslated, with `:attribute` not substituted. `$attribute` is not used.
- `preg_match` coercing a non-string `mixed` value to a string, and its error return, are left out. `Validate` takes a string.
- PHP strings are bytes, and the model's strings are sequences of characters. For the rules here this changes nothing: prefix tests agree on well-formed text, `\d` matches only ASCII digits, and a newline is a single byte.
- Only `src/helpers.php` and `src/Rules/MobileNumberRule.php` are modelled.
