/** The messages of the RPC protocol (src/include/rpc/rpc.h): headers, error codes and the
    few constants the client and the server agree on. */
module Rpc {
  import opened Wrappers

  datatype Err =
    | RESERVED
    | OK
    | UNMARSHALL_REPLY_FAILURE
    | UNMARSHALL_ARGS_FAILURE
    | BIND_FAILURE
    | ATMOST_ONCE_FAILURE
    | TIMEOUT_FAILURE
    | OLDSERVER_FAILURE
    | SEND_FAILURE
    | RECEIVE_FAILURE
    | CONNECTION_CLOSED
    | ACCEPT_FAILURE
    | CONNECT_FAILURE
    | CANCEL
    | TIMER_FAILURE
    | BROKEN_PIPE
    | CONNECTION_RESET
    | CONNECTION_ABORTED

  /** An argument or a result. The protocol copies it and never looks inside, except for
      the server nonce that a bind reply carries. */
  type Value = nat

  /** The procedure number reserved for binding. */
  const BIND: nat := 1000

  datatype Request = Request(xid: nat, proc: nat, cltNonce: nat, srvNonce: nat, xidRep: nat, args: Value)

  /** `value` is the entry under key "0": present in every reply a handler wrote, absent
      from the replies the dispatcher makes up itself. */
  datatype Reply = Reply(xid: nat, err: Err, value: Option<Value>)
}
