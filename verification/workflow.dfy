/**
 * The client's transition check (`canMoveTask`): a board's rules are consulted by source
 * column, and the first rule for the source decides.
 */
module Workflow {
  import opened Wrappers
  import opened ClientModel

  /** `rules.find((r) => r.fromColumnId === from)`. */
  function FindRule(rules: seq<WorkflowRule>, from: string): (r: Option<WorkflowRule>)
    ensures r.None? <==> forall i :: 0 <= i < |rules| ==> rules[i].fromColumnId != from
    ensures r.Some? ==> r.value in rules && r.value.fromColumnId == from
  {
    if |rules| == 0 then None
    else if rules[0].fromColumnId == from then Some(rules[0])
    else FindRule(rules[1..], from)
  }

  /**
   * `canMoveTask`: allowed when the board has no rule list, when the move stays in its
   * column, or when no rule starts at the source; otherwise allowed exactly when the
   * first rule for the source lists the target.
   */
  function CanMoveTask(board: Board, from: string, to: string): bool {
    if board.workflowRules.None? then true
    else if from == to then true
    else
      match FindRule(board.workflowRules.value, from)
      case None => true
      case Some(rule) => to in rule.toColumnIds
  }

  /** Rule `i` is the first whose source is `from`. */
  ghost predicate FirstRuleAt(rules: seq<WorkflowRule>, from: string, i: int) {
    && 0 <= i < |rules|
    && rules[i].fromColumnId == from
    && forall j :: 0 <= j < i ==> rules[j].fromColumnId != from
  }

  /** The transition policy stated without search: open by default, first matching rule decides. */
  ghost predicate Permitted(rules: Option<seq<WorkflowRule>>, from: string, to: string) {
    || rules.None?
    || from == to
    || (forall i :: 0 <= i < |rules.value| ==> rules.value[i].fromColumnId != from)
    || exists i :: FirstRuleAt(rules.value, from, i) && to in rules.value[i].toColumnIds
  }

  /** `find` returns the first rule for the source. */
  lemma {:induction false} FindRuleIsFirst(rules: seq<WorkflowRule>, from: string)
    requires FindRule(rules, from).Some?
    ensures exists i :: FirstRuleAt(rules, from, i) && rules[i] == FindRule(rules, from).value
  {
    if rules[0].fromColumnId == from {
      assert FirstRuleAt(rules, from, 0);
    } else {
      var tail := rules[1..];
      FindRuleIsFirst(tail, from);
      var k :| FirstRuleAt(tail, from, k) && tail[k] == FindRule(tail, from).value;
      assert FirstRuleAt(rules, from, k + 1) by {
        forall j | 0 <= j < k + 1 ensures rules[j].fromColumnId != from {
          if j > 0 {
            assert rules[j] == tail[j - 1];
          }
        }
      }
    }
  }

  lemma FirstRuleUnique(rules: seq<WorkflowRule>, from: string, i: int, k: int)
    requires FirstRuleAt(rules, from, i) && FirstRuleAt(rules, from, k)
    ensures i == k
  {
  }

  /** `canMoveTask` decides exactly the policy. */
  lemma CanMoveTaskIsPermitted(board: Board, from: string, to: string)
    ensures CanMoveTask(board, from, to) <==> Permitted(board.workflowRules, from, to)
  {
    if board.workflowRules.Some? && from != to {
      var rules := board.workflowRules.value;
      var found := FindRule(rules, from);
      if found.Some? {
        FindRuleIsFirst(rules, from);
        var k :| FirstRuleAt(rules, from, k) && rules[k] == found.value;
        if Permitted(board.workflowRules, from, to) {
          var i :| FirstRuleAt(rules, from, i) && to in rules[i].toColumnIds;
          FirstRuleUnique(rules, from, i, k);
        }
      }
    }
  }

  /** A move that stays in its column is always allowed. */
  lemma StayIsAllowed(board: Board, c: string)
    ensures CanMoveTask(board, c, c)
  {
  }

  /** A source column without a rule is unconstrained. */
  lemma OpenByDefault(board: Board, from: string, to: string)
    requires board.workflowRules.Some?
    requires forall r :: r in board.workflowRules.value ==> r.fromColumnId != from
    ensures CanMoveTask(board, from, to)
  {
  }

  /** Once a rule for the source exists, rules for that source after it have no say. */
  lemma {:induction false} LaterRulesIgnored(
    board: Board, from: string, to: string, extra: WorkflowRule)
    requires board.workflowRules.Some?
    requires exists r :: r in board.workflowRules.value && r.fromColumnId == from
    ensures CanMoveTask(board.(workflowRules := Some(board.workflowRules.value + [extra])), from, to)
        == CanMoveTask(board, from, to)
  {
    var rules := board.workflowRules.value;
    FindRuleAppend(rules, from, extra);
  }

  lemma {:induction false} FindRuleAppend(rules: seq<WorkflowRule>, from: string, extra: WorkflowRule)
    requires exists r :: r in rules && r.fromColumnId == from
    ensures FindRule(rules + [extra], from) == FindRule(rules, from)
  {
    if rules[0].fromColumnId != from {
      assert (rules + [extra])[1..] == rules[1..] + [extra];
      var r :| r in rules && r.fromColumnId == from;
      assert r in rules[1..];
      FindRuleAppend(rules[1..], from, extra);
    }
  }
}
