/**
 * The controller's side of runner networks: the digest cache and the boot
 * identifiers (bentod/src/runners.rs, `NetworkSync`).
 */
module NetworkSync {
  import opened Options

  /** What the controller remembers about one machine. */
  datatype HostView = HostView(applied: Option<string>, boot: Option<string>)

  /** A different boot identifier drops the cached digest; an empty one says nothing. */
  function NoteBoot(v: HostView, bootId: string): HostView {
    if bootId == "" then v
    else HostView(if v.boot.Some? && v.boot.value != bootId then None else v.applied, Some(bootId))
  }

  /** The description is the one the machine last acknowledged, so it is not sent. */
  predicate Skips(v: HostView, digest: string) { v.applied == Some(digest) }

  function Acknowledge(v: HostView, digest: string): HostView { v.(applied := Some(digest)) }

  /** The answer to one send. `NoAnswer` covers everything but an answer: nowhere to send to, a refusal, an error, a timeout. */
  datatype Reply = NetworkApplied | OtherReply | NoAnswer

  datatype Outcome = Skipped | Sent | Failed

  class Controller {
    var applied: map<int, string>
    var boots: map<int, string>

    function View(host: int): HostView
      reads this
    {
      HostView(if host in applied then Some(applied[host]) else None,
               if host in boots then Some(boots[host]) else None)
    }

    constructor ()
      ensures forall host: int :: View(host) == HostView(None, None)
    {
      applied, boots := map[], map[];
    }

    method NoteBootId(host: int, bootId: string)
      modifies this
      ensures View(host) == NoteBoot(old(View(host)), bootId)
      ensures forall other: int :: other != host ==> View(other) == old(View(other))
    {
      if bootId == "" {
        return;
      }
      var known := host in boots;
      var changed := known && boots[host] != bootId;
      boots := boots[host := bootId];
      if changed {
        applied := applied - {host};
      }
    }

    /**
     * One `sync_host`. `described` is the digest of a description that passed
     * its check, or `None` for a machine without identity, a refused plan or a
     * store error. `reply` is used only if the digest is new: a missing
     * endpoint, and a generation that could not be drawn, are `NoAnswer`.
     */
    method SyncHost(host: int, described: Option<string>, reply: Reply) returns (outcome: Outcome)
      modifies this
      ensures outcome == Skipped <==> described.Some? && Skips(old(View(host)), described.value)
      ensures outcome == Sent <==>
                described.Some? && !Skips(old(View(host)), described.value) && reply == NetworkApplied
      ensures View(host) == if outcome == Sent then Acknowledge(old(View(host)), described.value) else old(View(host))
      ensures outcome != Failed ==> View(host).applied == described
      ensures forall other: int :: other != host ==> View(other) == old(View(other))
    {
      if described.None? {
        return Failed;
      }
      var digest := described.value;
      if host in applied && applied[host] == digest {
        return Skipped;
      }
      if reply != NetworkApplied {
        return Failed;
      }
      applied := applied[host := digest];
      return Sent;
    }
  }
}
