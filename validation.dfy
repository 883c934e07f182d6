/**
 * The Validator of validation.go and the Message record of message.go: a
 * validator holds an ordered list of rules, and Run evaluates them in order,
 * collecting one message per failing rule.
 */
module Validation {
  import opened Wrappers
  import opened Rules

  /** A failed rule: the check's failure text and the rule's parameter. */
  datatype Message = Message(error: string, param: string)

  /** The errors Run returns (validation.go builds these texts itself). */
  const NoRulesError: string := "no rules defined on validator"
  const FailedError: string := "validation failed"

  /** What a rule's check answers for the given request form. */
  function Verdict(lib: Library, form: Form, rule: Rule): Option<string>
  {
    rule.check(lib, form, rule.param, rule.options)
  }

  /**
   * The messages of evaluating `rules` in order: one Message for each rule whose
   * check fails, carrying that failure text and that rule's parameter.
   */
  function Failures(lib: Library, form: Form, rules: seq<Rule>): (msgs: seq<Message>)
    ensures |msgs| <= |rules|
    decreases |rules|
  {
    if rules == [] then []
    else
      var last := rules[|rules| - 1];
      var earlier := Failures(lib, form, rules[..|rules| - 1]);
      match Verdict(lib, form, last)
      case Some(e) => earlier + [Message(e, last.param)]
      case None => earlier
  }

  /**
   * `msgs` lists the failing rules in rule order through `idx`: msgs[k] is the
   * message of rule idx[k], the indices strictly increase, and every failing rule
   * has its index in `idx`.
   */
  ghost predicate InRuleOrder(lib: Library, form: Form, rules: seq<Rule>, msgs: seq<Message>, idx: seq<int>)
  {
    && |idx| == |msgs|
    && (forall k :: 0 <= k < |idx| ==>
          && 0 <= idx[k] < |rules|
          && Verdict(lib, form, rules[idx[k]]) == Some(msgs[k].error)
          && msgs[k].param == rules[idx[k]].param)
    && (forall k, l :: 0 <= k < l < |idx| ==> idx[k] < idx[l])
    && (forall i :: 0 <= i < |rules| && Verdict(lib, form, rules[i]).Some? ==> i in idx)
  }

  /** Appending one rule extends an enumeration of the earlier rules' messages. */
  lemma ExtendRuleOrder(lib: Library, form: Form, init: seq<Rule>, last: Rule, msgs: seq<Message>, idx: seq<int>)
    requires InRuleOrder(lib, form, init, msgs, idx)
    ensures Verdict(lib, form, last).None? ==> InRuleOrder(lib, form, init + [last], msgs, idx)
    ensures Verdict(lib, form, last).Some? ==>
              InRuleOrder(lib, form, init + [last], msgs + [Message(Verdict(lib, form, last).value, last.param)], idx + [|init|])
  {
    var rules := init + [last];
    assert forall i :: 0 <= i < |init| ==> rules[i] == init[i];
    assert rules[|init|] == last;
    if Verdict(lib, form, last).Some? {
      var msgs' := msgs + [Message(Verdict(lib, form, last).value, last.param)];
      var idx' := idx + [|init|];
      forall k | 0 <= k < |idx'|
        ensures 0 <= idx'[k] < |rules| && Verdict(lib, form, rules[idx'[k]]) == Some(msgs'[k].error)
        ensures msgs'[k].param == rules[idx'[k]].param
      {
        if k < |idx| {
          assert idx'[k] == idx[k] && msgs'[k] == msgs[k];
        }
      }
      forall i | 0 <= i < |rules| && Verdict(lib, form, rules[i]).Some?
        ensures i in idx'
      {
        if i < |init| {
          assert i in idx;
        } else {
          assert idx'[|idx|] == i;
        }
      }
    }
  }

  /** The positions of the failing rules, in increasing order. */
  function FailingIndices(lib: Library, form: Form, rules: seq<Rule>): (idx: seq<int>)
    ensures |idx| <= |rules|
    decreases |rules|
  {
    if rules == [] then []
    else
      var n := |rules| - 1;
      var earlier := FailingIndices(lib, form, rules[..n]);
      if Verdict(lib, form, rules[n]).Some? then earlier + [n] else earlier
  }

  /** FailingIndices enumerates the messages of Failures, rule by rule. */
  lemma {:induction false} FailingIndicesEnumerate(lib: Library, form: Form, rules: seq<Rule>)
    ensures InRuleOrder(lib, form, rules, Failures(lib, form, rules), FailingIndices(lib, form, rules))
    decreases |rules|
  {
    if rules == [] {
      assert Failures(lib, form, rules) == [];
    } else {
      var n := |rules| - 1;
      var init := rules[..n];
      FailingIndicesEnumerate(lib, form, init);
      assert rules == init + [rules[n]];
      ExtendRuleOrder(lib, form, init, rules[n], Failures(lib, form, init), FailingIndices(lib, form, init));
    }
  }

  /** Failures holds exactly one message per failing rule, in rule-list order. */
  lemma FailuresInRuleOrder(lib: Library, form: Form, rules: seq<Rule>)
    ensures exists idx :: InRuleOrder(lib, form, rules, Failures(lib, form, rules), idx)
  {
    FailingIndicesEnumerate(lib, form, rules);
  }

  /** No message at all exactly when every rule's check passes. */
  lemma {:induction false} NoFailuresIffAllPass(lib: Library, form: Form, rules: seq<Rule>)
    ensures Failures(lib, form, rules) == [] <==>
              forall i :: 0 <= i < |rules| ==> Verdict(lib, form, rules[i]).None?
    decreases |rules|
  {
    if rules != [] {
      var n := |rules| - 1;
      NoFailuresIffAllPass(lib, form, rules[..n]);
      assert forall i :: 0 <= i < n ==> rules[i] == rules[..n][i];
    }
  }

  /** Evaluating two rule lists one after the other concatenates their messages. */
  lemma {:induction false} FailuresAppend(lib: Library, form: Form, a: seq<Rule>, b: seq<Rule>)
    ensures Failures(lib, form, a + b) == Failures(lib, form, a) + Failures(lib, form, b)
    decreases |b|
  {
    if b == [] {
      assert a + b == a;
    } else {
      var n := |b| - 1;
      assert (a + b)[..|a + b| - 1] == a + b[..n];
      assert (a + b)[|a + b| - 1] == b[n];
      FailuresAppend(lib, form, a, b[..n]);
    }
  }

  /**
   * The result Run promises for the rule list `rules`: with no rules, no
   * messages and the "no rules" error; otherwise the failures in rule order,
   * with the "validation failed" error exactly when there is at least one, and
   * `nil, nil` when every check passes.
   */
  ghost predicate Reports(lib: Library, form: Form, rules: seq<Rule>, msgs: seq<Message>, err: Option<string>)
  {
    if rules == [] then msgs == [] && err == Some(NoRulesError)
    else
      && msgs == Failures(lib, form, rules)
      && (err.Some? <==> msgs != [])
      && (err.Some? ==> err.value == FailedError)
  }

  /** Run's result is determined by the form and the rules. */
  lemma ReportsDetermined(lib: Library, form: Form, rules: seq<Rule>,
                          m1: seq<Message>, e1: Option<string>, m2: seq<Message>, e2: Option<string>)
    requires Reports(lib, form, rules, m1, e1) && Reports(lib, form, rules, m2, e2)
    ensures m1 == m2 && e1 == e2
  {
  }

  /** Two failing rules on one parameter give two messages for it, in order. */
  lemma TwoFailuresOnOneParam(lib: Library, form: Form, r1: Rule, r2: Rule)
    requires r1.param == r2.param
    requires Verdict(lib, form, r1).Some? && Verdict(lib, form, r2).Some?
    ensures Failures(lib, form, [r1, r2]) ==
              [Message(Verdict(lib, form, r1).value, r1.param), Message(Verdict(lib, form, r2).value, r1.param)]
  {
    assert [r1, r2][..1] == [r1];
    assert [r1][..0] == [];
  }

  class Validator {
    /** The library capabilities and the request form, bound at construction. */
    const lib: Library
    const request: Form
    /** The rules, in execution order. */
    var Rules: seq<Rule>

    /** Make: a validator holding exactly the given rules, possibly none. */
    constructor Make(lib: Library, request: Form, rules: seq<Rule>)
      ensures this.lib == lib && this.request == request && Rules == rules
    {
      this.lib := lib;
      this.request := request;
      Rules := rules;
    }

    /** Add: the given rules go at the end, in order; the earlier ones stay. */
    method Add(rules: seq<Rule>)
      modifies this`Rules
      ensures Rules == old(Rules) + rules
    {
      Rules := Rules + rules;
    }

    /**
     * Run evaluates every rule in list order and leaves the validator as it was
     * (it modifies nothing).
     */
    method Run() returns (msgs: seq<Message>, err: Option<string>)
      ensures Reports(lib, request, Rules, msgs, err)
      ensures |msgs| <= |Rules|
    {
      if |Rules| == 0 {
        return [], Some(NoRulesError);
      }
      var vm: seq<Message> := [];
      for i := 0 to |Rules|
        invariant vm == Failures(lib, request, Rules[..i])
      {
        var rule := Rules[i];
        var e := rule.check(lib, request, rule.param, rule.options);
        assert Rules[..i + 1][..i] == Rules[..i];
        if e.Some? {
          vm := vm + [Message(e.value, rule.param)];
        }
      }
      assert Rules[..|Rules|] == Rules;
      if |vm| > 0 {
        return vm, Some(FailedError);
      }
      return [], None;
    }
  }

  /** Check: Make a validator from the rules and Run it. */
  method Check(lib: Library, request: Form, rules: seq<Rule>) returns (msgs: seq<Message>, err: Option<string>)
    ensures Reports(lib, request, rules, msgs, err)
  {
    var v := new Validator.Make(lib, request, rules);
    msgs, err := v.Run();
  }

  /** Running a validator twice in a row gives identical results. */
  method RunTwice(v: Validator) returns (m1: seq<Message>, e1: Option<string>, m2: seq<Message>, e2: Option<string>)
    ensures m1 == m2 && e1 == e2
  {
    m1, e1 := v.Run();
    m2, e2 := v.Run();
    ReportsDetermined(v.lib, v.request, v.Rules, m1, e1, m2, e2);
  }

  /**
   * The scenarios of validation_test.go: an empty validator reports the "no
   * rules" error; after Add, a forced failure comes back with its text and
   * parameter and the "validation failed" error; and two failing rules on one
   * parameter give two messages for it.
   */
  method ValidatorScenarios(lib: Library, form: Form)
    returns (emptyMsgs: seq<Message>, emptyErr: Option<string>,
             forcedMsgs: seq<Message>, forcedErr: Option<string>,
             pairMsgs: seq<Message>)
    ensures emptyMsgs == [] && emptyErr == Some(NoRulesError)
    ensures forcedMsgs == [Message("forced failure", "forename")] && forcedErr == Some(FailedError)
    ensures pairMsgs == [Message("forced failure", "forename"), Message("forced failure", "forename")]
  {
    var fail: CheckFunc := (l, f, p, o) => Some("forced failure");
    var rule := Rule("forename", fail, map[]);

    var v := new Validator.Make(lib, form, []);
    emptyMsgs, emptyErr := v.Run();

    v.Add([rule]);
    forcedMsgs, forcedErr := v.Run();
    assert v.Rules == [rule] && [rule][..0] == [];

    var pairErr;
    pairMsgs, pairErr := Check(lib, form, [rule, rule]);
    TwoFailuresOnOneParam(lib, form, rule, rule);
  }
}
