/**
 The chain's own enumeration of transaction types: the name it reads from each
 wire code, in its order of declaration, and that the client writes those codes.
 */
module ChainTypes {
  import opened Wrappers
  import opened TransactionTypes

  /** from_wire_code and as_str; code 40 is retired. */
  function ChainName(code: nat): Option<string> {
    match code
    case 0 => Some("transfer")
    case 1 => Some("entity_link")
    case 2 => Some("agent_register")
    case 3 => Some("agent_update")
    case 4 => Some("task_submit")
    case 5 => Some("task_fulfill")
    case 6 => Some("task_cancel")
    case 7 => Some("reputation_update")
    case 63 => Some("task_accept")
    case 64 => Some("task_dispute")
    case 65 => Some("task_resolve")
    case 66 => Some("task_finalize")
    case 8 => Some("tool_register")
    case 9 => Some("tool_invoke")
    case 10 => Some("tool_result_submit")
    case 11 => Some("tool_result_accept")
    case 12 => Some("tool_result_dispute")
    case 13 => Some("tool_result_resolve")
    case 14 => Some("tool_job_expire")
    case 15 => Some("tool_subscription_plan_create")
    case 16 => Some("tool_subscription_plan_update")
    case 17 => Some("tool_subscription_start")
    case 18 => Some("tool_subscription_top_up")
    case 19 => Some("tool_subscription_cancel")
    case 20 => Some("tool_subscription_resume")
    case 21 => Some("tool_subscription_renew")
    case 22 => Some("tool_update")
    case 23 => Some("agreement_create")
    case 24 => Some("agreement_accept")
    case 25 => Some("agreement_execute")
    case 26 => Some("agreement_dispute")
    case 27 => Some("agreement_resolve")
    case 28 => Some("agreement_cancel")
    case 29 => Some("arbitrator_register")
    case 30 => Some("validator_register")
    case 31 => Some("validator_exit")
    case 32 => Some("validator_vrf_commit")
    case 33 => Some("validator_vrf_contribution")
    case 34 => Some("stake")
    case 35 => Some("unstake")
    case 36 => Some("task_decompose")
    case 37 => Some("batch")
    case 38 => Some("contract_deploy")
    case 39 => Some("contract_call")
    case 41 => Some("token_create")
    case 42 => Some("token_transfer")
    case 43 => Some("token_approve")
    case 44 => Some("token_mint")
    case 45 => Some("token_update_authority")
    case 46 => Some("token_burn")
    case 47 => Some("agent_deregister")
    case 48 => Some("tool_deregister")
    case 49 => Some("arbitrator_deregister")
    case 50 => Some("contract_deactivate")
    case 51 => Some("token_destroy")
    case 52 => Some("tool_usage_report")
    case 53 => Some("tool_usage_accept")
    case 54 => Some("tool_usage_dispute")
    case 55 => Some("tool_usage_resolve")
    case 56 => Some("tool_usage_expire")
    case 57 => Some("validator_update")
    case 58 => Some("contract_verify")
    case 59 => Some("contract_publish_abi")
    case 60 => Some("contract_route_update")
    case 61 => Some("contract_route_call")
    case 62 => Some("protocol_params_update")
    case 67 => Some("capability_propose")
    case 68 => Some("capability_approve")
    case 69 => Some("capability_reject")
    case 70 => Some("capability_deprecate")
    case 71 => Some("rpc_read_delegation_grant")
    case 72 => Some("rpc_read_delegation_revoke")
    case _ => None
  }

  /** The code of the k-th name of the client's table. */
  function CodeAt(k: nat): nat {
    if k < 40 then k else k + 1
  }

  lemma {:induction false} NamesFrom0(k: nat)
    requires k < 12
    ensures |FROM_0| == 12 && ChainName(CodeAt(0 + k)) == Some(FROM_0[k])
  {
    assert FROM_0[0] == "transfer" && FROM_0[1] == "entity_link";
    assert FROM_0[2] == "agent_register" && FROM_0[3] == "agent_update";
    assert FROM_0[4] == "task_submit" && FROM_0[5] == "task_fulfill";
    assert FROM_0[6] == "task_cancel" && FROM_0[7] == "reputation_update";
    assert FROM_0[8] == "tool_register" && FROM_0[9] == "tool_invoke";
    assert FROM_0[10] == "tool_result_submit" && FROM_0[11] == "tool_result_accept";
  }

  lemma {:induction false} NamesFrom12(k: nat)
    requires k < 12
    ensures |FROM_12| == 12 && ChainName(CodeAt(12 + k)) == Some(FROM_12[k])
  {
    assert FROM_12[0] == "tool_result_dispute" && FROM_12[1] == "tool_result_resolve";
    assert FROM_12[2] == "tool_job_expire" && FROM_12[3] == "tool_subscription_plan_create";
    assert FROM_12[4] == "tool_subscription_plan_update" && FROM_12[5] == "tool_subscription_start";
    assert FROM_12[6] == "tool_subscription_top_up" && FROM_12[7] == "tool_subscription_cancel";
    assert FROM_12[8] == "tool_subscription_resume" && FROM_12[9] == "tool_subscription_renew";
    assert FROM_12[10] == "tool_update" && FROM_12[11] == "agreement_create";
  }

  lemma {:induction false} NamesFrom24(k: nat)
    requires k < 12
    ensures |FROM_24| == 12 && ChainName(CodeAt(24 + k)) == Some(FROM_24[k])
  {
    assert FROM_24[0] == "agreement_accept" && FROM_24[1] == "agreement_execute";
    assert FROM_24[2] == "agreement_dispute" && FROM_24[3] == "agreement_resolve";
    assert FROM_24[4] == "agreement_cancel" && FROM_24[5] == "arbitrator_register";
    assert FROM_24[6] == "validator_register" && FROM_24[7] == "validator_exit";
    assert FROM_24[8] == "validator_vrf_commit" && FROM_24[9] == "validator_vrf_contribution";
    assert FROM_24[10] == "stake" && FROM_24[11] == "unstake";
  }

  lemma {:induction false} NamesFrom36(k: nat)
    requires k < 12
    ensures |FROM_36| == 12 && ChainName(CodeAt(36 + k)) == Some(FROM_36[k])
  {
    assert FROM_36[0] == "task_decompose" && FROM_36[1] == "batch";
    assert FROM_36[2] == "contract_deploy" && FROM_36[3] == "contract_call";
    assert FROM_36[4] == "token_create" && FROM_36[5] == "token_transfer";
    assert FROM_36[6] == "token_approve" && FROM_36[7] == "token_mint";
    assert FROM_36[8] == "token_update_authority" && FROM_36[9] == "token_burn";
    assert FROM_36[10] == "agent_deregister" && FROM_36[11] == "tool_deregister";
  }

  lemma {:induction false} NamesFrom48(k: nat)
    requires k < 12
    ensures |FROM_49| == 12 && ChainName(CodeAt(48 + k)) == Some(FROM_49[k])
  {
    assert FROM_49[0] == "arbitrator_deregister" && FROM_49[1] == "contract_deactivate";
    assert FROM_49[2] == "token_destroy" && FROM_49[3] == "tool_usage_report";
    assert FROM_49[4] == "tool_usage_accept" && FROM_49[5] == "tool_usage_dispute";
    assert FROM_49[6] == "tool_usage_resolve" && FROM_49[7] == "tool_usage_expire";
    assert FROM_49[8] == "validator_update" && FROM_49[9] == "contract_verify";
    assert FROM_49[10] == "contract_publish_abi" && FROM_49[11] == "contract_route_update";
  }

  lemma {:induction false} NamesFrom60(k: nat)
    requires k < 12
    ensures |FROM_61| == 12 && ChainName(CodeAt(60 + k)) == Some(FROM_61[k])
  {
    assert FROM_61[0] == "contract_route_call" && FROM_61[1] == "protocol_params_update";
    assert FROM_61[2] == "task_accept" && FROM_61[3] == "task_dispute";
    assert FROM_61[4] == "task_resolve" && FROM_61[5] == "task_finalize";
    assert FROM_61[6] == "capability_propose" && FROM_61[7] == "capability_approve";
    assert FROM_61[8] == "capability_reject" && FROM_61[9] == "capability_deprecate";
    assert FROM_61[10] == "rpc_read_delegation_grant" && FROM_61[11] == "rpc_read_delegation_revoke";
  }

  /** A place in six groups of twelve. */
  lemma {:induction false} InGroups(
    a: seq<string>, b: seq<string>, c: seq<string>, d: seq<string>, e: seq<string>, f: seq<string>, k: nat)
    requires |a| == |b| == |c| == |d| == |e| == |f| == 12 && k < 72
    ensures var all := a + (b + (c + (d + (e + f))));
      && |all| == 72
      && all[k] == if k < 12 then a[k] else if k < 24 then b[k - 12] else if k < 36 then c[k - 24]
                   else if k < 48 then d[k - 36] else if k < 60 then e[k - 48] else f[k - 60]
  {
  }

  /** The names of one group are those the chain has for its codes. */
  ghost predicate GroupAgrees(group: seq<string>, from: nat) {
    |group| == 12 && forall k :: 0 <= k < 12 ==> ChainName(CodeAt(from + k)) == Some(group[k])
  }

  lemma {:induction false} GroupsAgree(
    a: seq<string>, b: seq<string>, c: seq<string>, d: seq<string>, e: seq<string>, f: seq<string>, k: nat)
    requires GroupAgrees(a, 0) && GroupAgrees(b, 12) && GroupAgrees(c, 24)
    requires GroupAgrees(d, 36) && GroupAgrees(e, 48) && GroupAgrees(f, 60)
    requires k < 72
    ensures var all := a + (b + (c + (d + (e + f))));
      |all| == 72 && ChainName(CodeAt(k)) == Some(all[k])
  {
    InGroups(a, b, c, d, e, f, k);
  }

  lemma {:induction false} Group0()
    ensures GroupAgrees(FROM_0, 0)
  {
    forall k | 0 <= k < 12
      ensures |FROM_0| == 12 && ChainName(CodeAt(0 + k)) == Some(FROM_0[k])
    {
      NamesFrom0(k);
    }
  }

  lemma {:induction false} Group1()
    ensures GroupAgrees(FROM_12, 12)
  {
    forall k | 0 <= k < 12
      ensures |FROM_12| == 12 && ChainName(CodeAt(12 + k)) == Some(FROM_12[k])
    {
      NamesFrom12(k);
    }
  }

  lemma {:induction false} Group2()
    ensures GroupAgrees(FROM_24, 24)
  {
    forall k | 0 <= k < 12
      ensures |FROM_24| == 12 && ChainName(CodeAt(24 + k)) == Some(FROM_24[k])
    {
      NamesFrom24(k);
    }
  }

  lemma {:induction false} Group3()
    ensures GroupAgrees(FROM_36, 36)
  {
    forall k | 0 <= k < 12
      ensures |FROM_36| == 12 && ChainName(CodeAt(36 + k)) == Some(FROM_36[k])
    {
      NamesFrom36(k);
    }
  }

  lemma {:induction false} Group4()
    ensures GroupAgrees(FROM_49, 48)
  {
    forall k | 0 <= k < 12
      ensures |FROM_49| == 12 && ChainName(CodeAt(48 + k)) == Some(FROM_49[k])
    {
      NamesFrom48(k);
    }
  }

  lemma {:induction false} Group5()
    ensures GroupAgrees(FROM_61, 60)
  {
    forall k | 0 <= k < 12
      ensures |FROM_61| == 12 && ChainName(CodeAt(60 + k)) == Some(FROM_61[k])
    {
      NamesFrom60(k);
    }
  }

  lemma {:induction false} NameAt(k: nat)
    requires k < |TX_TYPES|
    ensures |TX_TYPES| == 72 && ChainName(CodeAt(k)) == Some(TX_TYPES[k])
  {
    Group0();
    Group1();
    Group2();
    Group3();
    Group4();
    Group5();
    GroupsAgree(FROM_0, FROM_12, FROM_24, FROM_36, FROM_49, FROM_61, k);
  }

  lemma {:induction false} PositionFound(types: seq<string>, name: string)
    ensures Position(types, name) < |types| <==> name in types
    decreases |types|
  {
    if types != [] {
      PositionFound(types[1..], name);
    }
  }

  /** The code the client writes for a name is the one the chain reads as that name. */
  lemma {:induction false} ClientCodeIsChains(name: string)
    requires WireCode(name).Some?
    ensures ChainName(WireCode(name).value) == Some(name)
  {
    NameAt(Position(TX_TYPES, name));
  }

  lemma {:induction false} ChainNamesListed(code: nat)
    requires ChainName(code).Some?
    ensures code <= 72 && code != 40
  {
  }

  /** And the client knows every name the chain knows. */
  lemma {:induction false} EveryChainName(code: nat)
    requires ChainName(code).Some?
    ensures WireCode(ChainName(code).value).Some?
  {
    ChainNamesListed(code);
    var k: nat := if code < 40 then code else code - 1;
    NameAt(k);
    PositionFound(TX_TYPES, TX_TYPES[k]);
  }
}
