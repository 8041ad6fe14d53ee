/**
 * The placeholder domain use case behind the `/hello` endpoint: `MydomainUsecase.Execute`.
 */
module Mydomain {
  import opened Wrappers

  datatype UsecaseInput = UsecaseInput(requester: string)

  datatype UsecaseOutput = UsecaseOutput(message: string)

  /** Both results of `Execute`: the output, and the error text when there is one. */
  datatype Reply = Reply(output: UsecaseOutput, err: Option<string>)

  const Greeting: string := "Hello, "

  /** Greets the requester; an empty requester is an error with an empty output. */
  function Execute(input: UsecaseInput): (r: Reply)
    ensures r.err.Some? <==> input.requester == ""
    ensures r.err.Some? ==> r.err.value == "requester is empty" && r.output.message == ""
    ensures r.err.None? ==>
      && |r.output.message| == |Greeting| + |input.requester|
      && r.output.message[..|Greeting|] == Greeting
      && r.output.message[|Greeting|..] == input.requester
  {
    if input.requester == "" then
      Reply(UsecaseOutput(""), Some("requester is empty"))
    else
      Reply(UsecaseOutput(Greeting + input.requester), None)
  }

  /** The requester a greeting is addressed to, if it is one. */
  function Addressee(message: string): Option<string>
  {
    if |message| > |Greeting| && message[..|Greeting|] == Greeting then Some(message[|Greeting|..]) else None
  }

  /** Every successful reply is a greeting addressed to exactly its requester. */
  lemma GreetingNamesRequester(input: UsecaseInput)
    requires input.requester != ""
    ensures Addressee(Execute(input).output.message) == Some(input.requester)
  {
  }
}
