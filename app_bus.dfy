/** `AppBus`: the process-wide channel between the VPN service and the screens. It holds the
    latest connection status (a state flow: the last value written wins) and a shared flow of
    log lines whose replay cache keeps the 100 most recent lines for late subscribers. */
module Bus {
  import opened Windows

  /** `AppBus.Status`; the three numbers are Kotlin `Long`s. */
  datatype Status = Status(connected: bool, startTimeMs: int, rxBytes: int, txBytes: int)

  /** The initial status, also published whenever the service stops. */
  const Disconnected := Status(false, 0, 0, 0)

  /** `replay = 100` of the log flow. */
  const ReplayCapacity := 100

  class AppBus {
    /** The value of the status flow. */
    var status: Status
    /** The replay cache of the log flow, oldest line first. */
    var replay: seq<string>
    /** Every line the flow has accepted so far. */
    ghost var accepted: seq<string>

    /** The replay cache is the last 100 accepted lines, in emission order. */
    ghost predicate Valid()
      reads this
    {
      replay == LastN(accepted, ReplayCapacity)
    }

    constructor ()
      ensures Valid()
      ensures status == Disconnected && replay == [] && accepted == []
    {
      status := Disconnected;
      replay := [];
      accepted := [];
    }

    /** `updateStatus`: the whole status is replaced; the log flow is not touched. */
    method UpdateStatus(newStatus: Status)
      modifies this`status
      ensures status == newStatus
      ensures replay == old(replay)
    {
      status := newStatus;
    }

    /** `emitLog`: `tryEmit` either takes the line (`delivered`), evicting the oldest cached
        line once 100 are cached, or drops it; nothing is ever thrown to the caller, and the
        status is not touched. */
    method EmitLog(line: string, delivered: bool)
      requires Valid()
      modifies this`replay, this`accepted
      ensures Valid()
      ensures replay == if delivered then Push(old(replay), line, ReplayCapacity) else old(replay)
      ensures accepted == if delivered then old(accepted) + [line] else old(accepted)
      ensures status == old(status)
    {
      if delivered {
        PushLastN(accepted, line, ReplayCapacity);
        replay := Push(replay, line, ReplayCapacity);
        accepted := accepted + [line];
      }
    }
  }
}
