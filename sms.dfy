/**
 * The SMS transport of backend/src/sms.ts, seen from its callers: `sendSMS`
 * asks Twilio to deliver a text and catches and logs any failure, so for the
 * caller every call returns normally. The model records each attempt, in order;
 * whether Twilio delivered it is not observable to the caller and is left out.
 */
module Sms {

  datatype Message = Message(to: string, body: string)

  class Outbox {
    /** Every `sendSMS(to, body)` call made so far, oldest first. */
    var sent: seq<Message>

    constructor ()
      ensures sent == []
    {
      sent := [];
    }

    /** `sendSMS(to, body)`: one more attempt, never an exception. */
    method Send(to: string, body: string)
      modifies this
      ensures sent == old(sent) + [Message(to, body)]
    {
      sent := sent + [Message(to, body)];
    }
  }
}
