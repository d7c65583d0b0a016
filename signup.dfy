/**
 * The outcome state of the signup form: `authLoading`, `authError` and
 * `success`, reset when a registration request starts and resolved from the
 * `message` of the parsed reply.
 */
module Signup {
  import opened Wrappers

  /** The message the server sends when an account was created. */
  const Registered := "User registered"
  /** The error shown when the server gives no message. */
  const Fallback := "Signup failed"

  /**
   * The parsed body of the registration reply: an object whose `message`
   * is a string (Some) or absent (None), or `null`. A number, string or
   * boolean body has no `message` either and is represented by `Body(None)`.
   */
  datatype RegisterBody = Body(message: Option<string>) | NullBody

  /** The success flag and error text a registration settles on. */
  datatype Verdict = Verdict(success: bool, error: string)

  /**
   * The decision rule: success exactly on the literal registration message;
   * otherwise the message itself as the error, or the fallback when the
   * message is missing or empty.
   */
  function Decide(message: Option<string>): (v: Verdict)
    ensures v.success <==> message == Some(Registered)
    ensures v.success ==> v.error == ""
    ensures !v.success && message.Some? && message.value != "" ==> v.error == message.value
    ensures !v.success && (message.None? || message == Some("")) ==> v.error == Fallback
    ensures v.success <==> v.error == ""
  {
    if message == Some(Registered) then Verdict(true, "")
    else Verdict(false, if message.Some? && message.value != "" then message.value else Fallback)
  }

  class SignupForm {
    var authLoading: bool
    var authError: string
    var success: bool

    /** A request is in flight and nothing has been reported yet. */
    predicate Waiting()
      reads this
    {
      authLoading && authError == "" && !success
    }

    /** Success and an error message are never shown together. */
    predicate Coherent()
      reads this
    {
      !(success && authError != "")
    }

    /** The form as first rendered: idle, no error, no success. */
    constructor ()
      ensures !authLoading && authError == "" && !success
      ensures Coherent()
    {
      authLoading := false;
      authError := "";
      success := false;
    }

    /** The request starts: loading on, error cleared, success cleared. */
    method Start()
      modifies this
      ensures authLoading && authError == "" && !success
      ensures Waiting() && Coherent()
    {
      authLoading := true;
      authError := "";
      success := false;
    }

    /**
     * The reply settles. A rejected request or parse leaves everything as it
     * was. A parsed body turns loading off; a `null` body then throws on
     * reading `message`, so nothing else changes; otherwise success is set on
     * the registration message and the error text on any other message.
     */
    method Finish(reply: Reply<RegisterBody>)
      modifies this
      ensures reply.Rejected? ==> authLoading == old(authLoading) && authError == old(authError) && success == old(success)
      ensures reply.Ok? ==> !authLoading
      ensures reply == Ok(NullBody) ==> authError == old(authError) && success == old(success)
      ensures reply.Ok? && reply.body.Body? && reply.body.message == Some(Registered) ==>
                success && authError == old(authError)
      ensures reply.Ok? && reply.body.Body? && reply.body.message != Some(Registered) ==>
                authError == Decide(reply.body.message).error && success == old(success)
      ensures old(Waiting()) ==> Coherent()
    {
      if reply.Ok? {
        authLoading := false;
        match reply.body
        case NullBody =>
        case Body(message) =>
          if message == Some(Registered) {
            success := true;
          } else {
            authError := if message.Some? && message.value != "" then message.value else Fallback;
          }
      }
    }

    /**
     * One registration from start to reply. The settled state depends only on
     * the reply, whatever the form showed before.
     */
    method Signup(reply: Reply<RegisterBody>)
      modifies this
      ensures reply.Rejected? ==> Waiting()
      ensures reply == Ok(NullBody) ==> !authLoading && authError == "" && !success
      ensures reply.Ok? && reply.body.Body? ==>
                !authLoading && Verdict(success, authError) == Decide(reply.body.message)
      ensures Coherent()
    {
      Start();
      Finish(reply);
    }
  }
}
