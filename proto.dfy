/**
 * The wire-level vocabulary shared by the daemon and the client: gRPC's
 * canonical status codes and the timeline Message.
 */
module Proto {
  /** The canonical gRPC status codes (the daemon itself only returns Ok,
      Cancelled and AlreadyExists; the transport may produce the others). */
  datatype StatusCode =
    | Ok | Cancelled | Unknown | InvalidArgument | DeadlineExceeded | NotFound
    | AlreadyExists | PermissionDenied | ResourceExhausted | FailedPrecondition
    | Aborted | OutOfRange | Unimplemented | Internal | Unavailable | DataLoss
    | Unauthenticated

  /** A timeline Message. The protobuf Timestamp is kept as the opaque text
      it is stored as ("YYYY-MM-DD HH:MM:SS"). */
  datatype Message = Message(username: string, msg: string, timestamp: string)
}
