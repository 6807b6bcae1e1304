/** RPC requests, responses and errors, as the substream handler sees them. */
module RpcMessages {

  type RequestId = nat
  type Payload = seq<nat>

  datatype RpcRequest = StatusRequest(status: Payload) | Goodbye(reason: nat) | BlockSyncRequest(start: Payload)
  {
    /** A goodbye is never answered. */
    predicate ExpectResponse() {
      !Goodbye?
    }

    predicate MultipleResponses() {
      BlockSyncRequest?
    }
  }

  datatype RpcResponse = Status(status: Payload) | BlockSync(chunk: Payload)

  datatype RpcErrorResponse =
    | Success(response: RpcResponse)
    | InvalidRequest(message: string)
    | ServerError(message: string)
    | Unknown(message: string)
    | StreamTermination
  {
    predicate MultipleResponses() {
      match this
      case Success(Status(_)) => false
      case _ => true
    }

    predicate IsError() {
      !Success?
    }
  }

  datatype RpcError =
    | ReadError | CborDecodeError | InvalidProtocol(name: string) | IoError
    | StreamTimeout | ErrorResponse | Custom(message: string)

  /** Why an outbound upgrade failed. */
  datatype UpgradeError = Timeout | Timer | Apply(error: RpcError) | Select(message: string)

  datatype RpcEvent =
    | Request(id: RequestId, request: RpcRequest)
    | Response(id: RequestId, response: RpcErrorResponse)
    | Error(id: RequestId, error: RpcError)

  /** What the handler tells its connection. */
  datatype HandlerEvent = Report(event: RpcEvent) | OutboundSubstreamRequest(info: RpcEvent)
}
