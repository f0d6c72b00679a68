/**
 * A password or form validator in this application is an ordered list of
 * rules, each a test and the message to show when the test fails; the
 * validator reports the message of the first failing rule, or nothing.
 */
module RuleChains {
  import opened Common

  datatype Rule = Rule(holds: string -> bool, message: string)

  /** Every rule of the list accepts `s`. */
  ghost predicate AllHold(rules: seq<Rule>, s: string) {
    forall i :: 0 <= i < |rules| ==> rules[i].holds(s)
  }

  /** Rule `i` is the first rule of the list that rejects `s`. */
  ghost predicate FirstFailingAt(rules: seq<Rule>, s: string, i: int) {
    && 0 <= i < |rules|
    && !rules[i].holds(s)
    && forall j :: 0 <= j < i ==> rules[j].holds(s)
  }

  /** The message of the first rule that rejects `s`, if any rule does. */
  function FirstFailure(rules: seq<Rule>, s: string): (r: Option<string>)
    ensures r.None? <==> AllHold(rules, s)
    ensures r.Some? ==> exists i :: FirstFailingAt(rules, s, i) && r.value == rules[i].message
  {
    if rules == [] then None
    else if !rules[0].holds(s) then
      assert FirstFailingAt(rules, s, 0);
      Some(rules[0].message)
    else
      var r := FirstFailure(rules[1..], s);
      if r.Some? then
        assert exists i :: FirstFailingAt(rules, s, i) && r.value == rules[i].message by {
          var i :| FirstFailingAt(rules[1..], s, i) && r.value == rules[1..][i].message;
          assert FirstFailingAt(rules, s, i + 1);
        }
        r
      else
        assert AllHold(rules, s) by {
          forall k | 0 <= k < |rules| ensures rules[k].holds(s) {
            if k > 0 { assert rules[k] == rules[1..][k - 1]; }
          }
        }
        r
  }
}
