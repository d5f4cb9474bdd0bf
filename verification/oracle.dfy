/**
 The language-model service, seen from the core: a request names the fixed
 instruction, the model tier and the text; the reply is an arbitrary string.
 The network call itself is not modelled.
 */
module Oracle {

  /** `model_class`: `'fast'` and `'best'`. */
  datatype Tier = Fast | Best

  /** The fixed system messages the core sends. */
  datatype Instruction =
    | AssessSpecification      // clear or unclear?
    | CopileFromSpecification  // write the implementation
    | CheckForSafetyIssues     // list the risk labels

  datatype Request = Request(instruction: Instruction, tier: Tier, text: string)

  /**
   The service's replies within one invocation: the reply to the `n`-th call
   (counting from 0) made with a given request. Indexing by `n` lets two
   identical requests get different replies, as a retry does.
   */
  type Service = (nat, Request) -> string

  /** The labels the safety instruction asks the model to choose from. */
  const RiskLabels: set<string> := {
    "FILE_ACCESS", "FILE_DELETION", "FILE_WRITE", "NON_TERMINATING",
    "CODE_EVAL", "SYSTEM_CALL", "GENERALLY_UNSAFE"
  }

  /** The reply the safety instruction asks for when no label applies. */
  const NoIssues: string := "NONE"

  /** Number of requests in `calls` with the given instruction. */
  function CountOf(calls: seq<Request>, instruction: Instruction): nat {
    if calls == [] then 0
    else (if calls[0].instruction == instruction then 1 else 0) + CountOf(calls[1..], instruction)
  }

  lemma {:induction false} CountOfAppend(a: seq<Request>, b: seq<Request>, instruction: Instruction)
    ensures CountOf(a + b, instruction) == CountOf(a, instruction) + CountOf(b, instruction)
  {
    if a == [] {
      assert a + b == b;
    } else {
      assert (a + b)[0] == a[0];
      assert (a + b)[1..] == a[1..] + b;
      CountOfAppend(a[1..], b, instruction);
    }
  }
}
