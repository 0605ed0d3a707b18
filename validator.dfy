/**
 * The per-request validator: a map from field name to error message in
 * which the first message recorded for a field wins, and the two generic
 * checks that sit beside it (membership in a list, absence of duplicates).
 */
module Validation {
  import opened Wrappers

  /** The error map after `AddError(key, msg)`: the first message for a key wins. */
  function Added(errors: map<string, string>, key: string, msg: string): (r: map<string, string>)
    ensures r.Keys == errors.Keys + {key}
    ensures r[key] == if key in errors then errors[key] else msg
    ensures forall k :: k in errors ==> r[k] == errors[k]
  {
    if key in errors then errors else errors[key := msg]
  }

  /** One `Check(ok, key, msg)` call, as data. */
  datatype Rule = Rule(ok: bool, key: string, msg: string)

  /** The error map after one `Check`. */
  function Step(errors: map<string, string>, rule: Rule): map<string, string>
  {
    if rule.ok then errors else Added(errors, rule.key, rule.msg)
  }

  /** The error map after the `Check` calls `rules`, made in order. */
  function Apply(errors: map<string, string>, rules: seq<Rule>): map<string, string>
  {
    if rules == [] then errors
    else Step(Apply(errors, rules[..|rules| - 1]), rules[|rules| - 1])
  }

  /** The message of the first failing rule for `key`, if any rule for it fails. */
  function FirstFailure(rules: seq<Rule>, key: string): (r: Option<string>)
    ensures r.Some? <==> exists i :: 0 <= i < |rules| && rules[i].key == key && !rules[i].ok
    ensures r.Some? ==> exists i :: 0 <= i < |rules| && rules[i].key == key && !rules[i].ok
                          && rules[i].msg == r.value
                          && forall j :: 0 <= j < i ==> rules[j].key != key || rules[j].ok
  {
    if rules == [] then None
    else
      var init, last := rules[..|rules| - 1], rules[|rules| - 1];
      var earlier := FirstFailure(init, key);
      assert forall i :: 0 <= i < |init| ==> rules[i] == init[i];
      if earlier.Some? then earlier
      else if last.key == key && !last.ok then Some(last.msg)
      else None
  }

  /**
   * What a run of checks does to one key: a message already present stays;
   * otherwise the key gets the message of its first failing check, and
   * stays absent when every check on it passes.
   */
  lemma {:induction false} ApplyRules(errors: map<string, string>, rules: seq<Rule>, key: string)
    ensures key in errors ==> key in Apply(errors, rules) && Apply(errors, rules)[key] == errors[key]
    ensures key !in errors ==> (key in Apply(errors, rules) <==> FirstFailure(rules, key).Some?)
    ensures key !in errors && key in Apply(errors, rules) ==>
              Apply(errors, rules)[key] == FirstFailure(rules, key).value
  {
    if rules != [] {
      ApplyRules(errors, rules[..|rules| - 1], key);
    }
  }

  /** One more check on top of a run of checks. */
  lemma ApplySnoc(errors: map<string, string>, rules: seq<Rule>, r: Rule)
    ensures Apply(errors, rules + [r]) == Step(Apply(errors, rules), r)
  {
    assert (rules + [r])[..|rules|] == rules;
  }

  /** Running `a` and then `b` is running `a + b`. */
  lemma {:induction false} ApplyConcat(errors: map<string, string>, a: seq<Rule>, b: seq<Rule>)
    ensures Apply(errors, a + b) == Apply(Apply(errors, a), b)
  {
    if b == [] {
      assert a + b == a;
    } else {
      var init := b[..|b| - 1];
      assert (a + b)[..|a + b| - 1] == a + init;
      ApplyConcat(errors, a, init);
    }
  }

  /** The first failure for `key` in `a + b` is the one in `a`, or else the one in `b`. */
  lemma {:induction false} FirstFailureConcat(a: seq<Rule>, b: seq<Rule>, key: string)
    ensures FirstFailure(a + b, key) == if FirstFailure(a, key).Some? then FirstFailure(a, key) else FirstFailure(b, key)
  {
    if b == [] {
      assert a + b == a;
    } else {
      var init := b[..|b| - 1];
      assert (a + b)[..|a + b| - 1] == a + init;
      FirstFailureConcat(a, init, key);
    }
  }

  /** The rule at `i` fails for `key` and no earlier rule does: its message is the first failure. */
  lemma FirstFailureAt(rules: seq<Rule>, key: string, i: nat)
    requires i < |rules| && rules[i].key == key && !rules[i].ok
    requires forall j :: 0 <= j < i ==> rules[j].key != key || rules[j].ok
    ensures FirstFailure(rules, key) == Some(rules[i].msg)
  {
    var r := FirstFailure(rules, key);
    var k :| 0 <= k < |rules| && rules[k].key == key && !rules[k].ok && rules[k].msg == r.value
             && forall j :: 0 <= j < k ==> rules[j].key != key || rules[j].ok;
    assert k == i;
  }

  /** Errors only accumulate: every recorded message survives further checks. */
  lemma {:induction false} ApplyKeeps(errors: map<string, string>, rules: seq<Rule>)
    ensures errors.Keys <= Apply(errors, rules).Keys
    ensures forall k :: k in errors ==> Apply(errors, rules)[k] == errors[k]
    ensures errors != map[] ==> Apply(errors, rules) != map[]
  {
    forall k | k in errors
      ensures k in Apply(errors, rules) && Apply(errors, rules)[k] == errors[k]
    {
      ApplyRules(errors, rules, k);
    }
    if errors != map[] {
      var k :| k in errors;
      assert k in Apply(errors, rules);
    }
  }

  /** `key`'s value in a map, if present. */
  function Lookup(errors: map<string, string>, key: string): Option<string>
  {
    if key in errors then Some(errors[key]) else None
  }

  /** All of `rules` are about `key`. */
  predicate AllAbout(rules: seq<Rule>, key: string)
  {
    forall i :: 0 <= i < |rules| ==> rules[i].key == key
  }

  /** A validator holds the messages recorded so far for one request. */
  class Validator {
    var errors: map<string, string>

    /** `validator.New()`: no errors yet. */
    constructor ()
      ensures errors == map[]
    {
      errors := map[];
    }

    /** True exactly when no error has been recorded. */
    function Valid(): (ok: bool)
      reads this
      ensures ok <==> errors == map[]
    {
      |errors| == 0
    }

    /** Records `msg` under `key` unless `key` already has a message. */
    method AddError(key: string, msg: string)
      modifies this
      ensures errors == Added(old(errors), key, msg)
    {
      if key !in errors {
        errors := errors[key := msg];
      }
    }

    /** Records `msg` under `key` only when the check failed. */
    method Check(ok: bool, key: string, msg: string)
      modifies this
      ensures errors == Step(old(errors), Rule(ok, key, msg))
    {
      if !ok {
        AddError(key, msg);
      }
    }
  }

  /** `PermittedValue(value, permitted...)`: a linear search with early exit. */
  method PermittedValue<T(==)>(value: T, permitted: seq<T>) returns (found: bool)
    ensures found <==> value in permitted
  {
    for i := 0 to |permitted|
      invariant value !in permitted[..i]
    {
      if value == permitted[i] {
        return true;
      }
    }
    return false;
  }

  predicate NoDuplicates<T(==)>(xs: seq<T>)
  {
    forall i, j :: 0 <= i < j < |xs| ==> xs[i] != xs[j]
  }

  function Elements<T>(xs: seq<T>): set<T>
  {
    set x | x in xs
  }

  /** A list has as many distinct values as entries exactly when it has no duplicates. */
  lemma {:induction false} DistinctCount<T>(xs: seq<T>)
    ensures |Elements(xs)| <= |xs|
    ensures |Elements(xs)| == |xs| <==> NoDuplicates(xs)
  {
    if xs != [] {
      var ys, x := xs[..|xs| - 1], xs[|xs| - 1];
      assert xs == ys + [x];
      DistinctCount(ys);
      assert Elements(xs) == Elements(ys) + {x};
      if x in ys {
        var k :| 0 <= k < |ys| && ys[k] == x;
        assert xs[k] == xs[|xs| - 1];
      } else {
        assert Elements(xs) == Elements(ys) + {x} && x !in Elements(ys);
        if NoDuplicates(ys) {
          forall i, j | 0 <= i < j < |xs| ensures xs[i] != xs[j] {
            if j < |ys| {
              assert xs[i] == ys[i] && xs[j] == ys[j];
            } else {
              assert xs[i] == ys[i];
            }
          }
        }
        if NoDuplicates(xs) {
          forall i, j | 0 <= i < j < |ys| ensures ys[i] != ys[j] {
            assert xs[i] == ys[i] && xs[j] == ys[j];
          }
        }
      }
    }
  }

  /**
   * `Unique(values)`: fills a set (a map to `true`) with the values and
   * compares its size with the number of values.
   */
  method Unique<T(==)>(values: seq<T>) returns (unique: bool)
    ensures unique <==> NoDuplicates(values)
  {
    var seen: map<T, bool> := map[];
    for i := 0 to |values|
      invariant seen.Keys == Elements(values[..i])
    {
      assert values[..i + 1] == values[..i] + [values[i]];
      seen := seen[values[i] := true];
    }
    assert values[..|values|] == values;
    DistinctCount(values);
    unique := |values| == |seen|;
  }
}
