/** Result codes and ticket states shared by the providers (include/saccade/saccade.h,
    include/saccade/saccade_backend.h), with the machine integer ranges the code relies on. */
module Statuses {
  datatype Option<+T> = None | Some(value: T)

  datatype Status =
    | Ok | InvalidArgument | Capacity | StaleHandle | Backend | State | Timeout | Cancelled | Busy

  datatype TicketState = Queued | Running | Complete | TicketCancelled | Failed {
    predicate Pending() { Queued? || Running? }
    predicate Terminal() { !Pending() }
  }

  const U32_LIMIT := 0x1_0000_0000
  const U64_LIMIT := 0x1_0000_0000_0000_0000

  type Byte = b: int | 0 <= b < 256
  type I32 = n: int | -0x8000_0000 <= n < 0x8000_0000
  type U32 = n: int | 0 <= n < 0x1_0000_0000
  type U64 = n: int | 0 <= n < 0x1_0000_0000_0000_0000
}
