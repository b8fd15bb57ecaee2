/** Transaction types and their wire codes. */
module TransactionTypes {
  import opened Wrappers
  import opened Transaction

  // The names in the order of their wire codes, in groups of twelve; code 40 is not used.

  const FROM_0: seq<string> := [
    "transfer", "entity_link", "agent_register", "agent_update", "task_submit", "task_fulfill", "task_cancel",
    "reputation_update", "tool_register", "tool_invoke", "tool_result_submit", "tool_result_accept"
  ]

  const FROM_12: seq<string> := [
    "tool_result_dispute", "tool_result_resolve", "tool_job_expire", "tool_subscription_plan_create",
    "tool_subscription_plan_update", "tool_subscription_start", "tool_subscription_top_up",
    "tool_subscription_cancel", "tool_subscription_resume", "tool_subscription_renew", "tool_update",
    "agreement_create"
  ]

  const FROM_24: seq<string> := [
    "agreement_accept", "agreement_execute", "agreement_dispute", "agreement_resolve", "agreement_cancel",
    "arbitrator_register", "validator_register", "validator_exit", "validator_vrf_commit",
    "validator_vrf_contribution", "stake", "unstake"
  ]

  const FROM_36: seq<string> := [
    "task_decompose", "batch", "contract_deploy", "contract_call", "token_create", "token_transfer",
    "token_approve", "token_mint", "token_update_authority", "token_burn", "agent_deregister", "tool_deregister"
  ]

  const FROM_49: seq<string> := [
    "arbitrator_deregister", "contract_deactivate", "token_destroy", "tool_usage_report", "tool_usage_accept",
    "tool_usage_dispute", "tool_usage_resolve", "tool_usage_expire", "validator_update", "contract_verify",
    "contract_publish_abi", "contract_route_update"
  ]

  const FROM_61: seq<string> := [
    "contract_route_call", "protocol_params_update", "task_accept", "task_dispute", "task_resolve",
    "task_finalize", "capability_propose", "capability_approve", "capability_reject", "capability_deprecate",
    "rpc_read_delegation_grant", "rpc_read_delegation_revoke"
  ]

  const TX_TYPES: seq<string> :=
    FROM_0 + (FROM_12 + (FROM_24 + (FROM_36 + (FROM_49 + FROM_61))))

  const UNUSED_CODE: nat := 40

  function Position(types: seq<string>, name: string): (k: nat)
    ensures k <= |types| && (k < |types| ==> types[k] == name)
  {
    if types == [] || types[0] == name then 0 else 1 + Position(types[1..], name)
  }

  function CodeIn(types: seq<string>, name: string): Option<nat> {
    var k := Position(types, name);
    if k == |types| then None else Some(if k < UNUSED_CODE then k else k + 1)
  }

  /** The wire code of a name, or None for a name the format does not know. */
  function WireCode(name: string): Option<nat> {
    CodeIn(TX_TYPES, name)
  }

  lemma {:induction false} CodeInInjective(types: seq<string>, s: string, t: string)
    requires CodeIn(types, s).Some? && CodeIn(types, s) == CodeIn(types, t)
    ensures s == t
    ensures |types| <= 0xFFFF_FFFF ==> CodeIn(types, s).value <= 0xFFFF_FFFF
  {
  }

  /** No two types share a wire code, and codes fit 32 bits. */
  lemma {:induction false} WireCodeInjective(s: string, t: string)
    requires WireCode(s).Some? && WireCode(s) == WireCode(t)
    ensures s == t && WireCode(s).value <= 0xFFFF_FFFF
  {
    CodeInInjective(TX_TYPES, s, t);
  }

  /** The table is one the transaction theorems ask for. */
  lemma {:induction false} WireCodesOk()
    ensures CodesOk(WireCode)
  {
    forall s | WireCode(s).Some?
      ensures WireCode(s).value <= 0xFFFF_FFFF && forall t :: WireCode(s) == WireCode(t) ==> s == t
    {
      WireCodeInjective(s, s);
      forall t | WireCode(s) == WireCode(t)
        ensures s == t
      {
        WireCodeInjective(s, t);
      }
    }
  }

  function Longest(types: seq<string>): nat {
    if types == [] then 0
    else
      var rest := Longest(types[1..]);
      if |types[0]| > rest then |types[0]| else rest
  }

  lemma {:induction false} TooLong(types: seq<string>, name: string)
    requires |name| > Longest(types)
    ensures CodeIn(types, name).None?
    decreases |types|
  {
    if types != [] {
      TooLong(types[1..], name);
    }
  }

  /** Some names the table does not know. */
  lemma {:induction false} UnknownName() returns (name: string)
    ensures WireCode(name).None?
  {
    name := seq(Longest(TX_TYPES) + 1, i => 'x');
    TooLong(TX_TYPES, name);
  }
}
