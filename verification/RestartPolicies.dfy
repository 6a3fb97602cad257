/** Docker's restart policies, and how one that was read is written back as a flag. */
module RestartPolicies {

  datatype Policy = Policy(name: string, retries: nat)
  datatype Flag = Plain(name: string) | OnFailure(retries: nat)

  /** The policy that keeps a fenced container down. */
  const NEVER := Policy("no", 0)

  function RestartFlag(policy: Policy): Flag {
    if policy.name == "on-failure" && policy.retries != 0 then OnFailure(policy.retries) else Plain(policy.name)
  }

  predicate ValidFlag(flag: Flag) {
    flag.OnFailure? || flag.name in {"", "no", "always", "unless-stopped", "on-failure"}
  }

  /** The policy Docker stores for a flag; Docker reports an unset policy as "", which is set as "no". */
  function Applied(flag: Flag): Policy {
    match flag
    case OnFailure(n) => Policy("on-failure", n)
    case Plain(name) => Policy(if name == "" then "no" else name, 0)
  }

  function PutBack(policy: Policy): Policy {
    Applied(RestartFlag(policy))
  }

  /** The policy survives being written as a flag exactly when it is set and only on-failure counts retries. */
  lemma PutBackIsOriginal(policy: Policy)
    ensures PutBack(policy) == policy <==>
            policy.name != "" && (policy.name == "on-failure" || policy.retries == 0)
    ensures PutBack(PutBack(policy)) == PutBack(policy)
  {
    assert "no" != "on-failure" by { assert "no"[0] != "on-failure"[0]; }
  }

  /** A policy that comes back as it was, or as "no". */
  predicate Lasting(policy: Policy) {
    policy.name in {"", "no", "on-failure"} || policy.retries == 0
  }

  lemma LastingIsExact(policy: Policy)
    ensures Lasting(policy) <==> PutBack(policy) == policy || PutBack(policy).name == "no"
  {
    PutBackIsOriginal(policy);
  }
}
