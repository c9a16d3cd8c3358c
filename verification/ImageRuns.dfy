/**
 * Images over whole runs (bentod/src/runners.rs, `ImageSync`;
 * bentod/src/ops.rs, the requests of an operator): passes, single requests,
 * changes of the allowlist and power cuts, in any order and number.
 */
module ImageRuns {
  import opened Options
  import opened ImageFetch
  import opened ImageSync

  /** The records the controller has of one machine, and the machine's files. */
  datatype State = State(held: seq<Version>, names: map<Name, Bytes>)

  /**
   * One request, with the image's row as it was then and the version that was
   * asked for, or a power cut. An operator's request asks for no version.
   */
  datatype Event = Asks(image: ImageRow, have: Option<string>, call: Call) | PowerCut

  /** A request does what `Ensure` allows; a power cut may leave any names, and no record changes. */
  ghost predicate Leads(a: State, e: Event, b: State, hash: Bytes -> string) {
    match e
    case Asks(image, have, call) => Asked(image.name, have, call, a.held, a.names, b.held, b.names, hash)
    case PowerCut => b.held == a.held
  }

  ghost predicate IsRun(states: seq<State>, events: seq<Event>, hash: Bytes -> string) {
    |states| == |events| + 1 && forall i :: 0 <= i < |events| ==> Leads(states[i], events[i], states[i + 1], hash)
  }

  /** The file was there before the power cut at `c`, and at no moment from then up to `j`. */
  ghost predicate LostAt(states: seq<State>, events: seq<Event>, digest: string, c: nat, j: nat)
    requires |states| == |events| + 1
  {
    && c < j < |states| && events[c].PowerCut? && Image(digest) in states[c].names
    && forall i :: c < i <= j ==> Image(digest) !in states[i].names
  }

  lemma {:induction false} RecordsStay(states: seq<State>, events: seq<Event>, hash: Bytes -> string, v: Version, p: nat,
                                       j: nat)
    requires IsRun(states, events, hash) && p <= j < |states| && v in states[p].held
    ensures v in states[j].held
    decreases j
  {
    if p < j {
      RecordsStay(states, events, hash, v, p, j - 1);
      assert Leads(states[j - 1], events[j - 1], states[j], hash);
    }
  }

  /** A record without its file lost it in a power cut, and has not had it since. */
  lemma {:induction false} MissingWasLost(states: seq<State>, events: seq<Event>, hash: Bytes -> string, v: Version, j: nat)
    requires IsRun(states, events, hash) && Backed(states[0].held, states[0].names)
    requires j < |states| && v in states[j].held && Image(v.1) !in states[j].names
    ensures exists c: nat :: LostAt(states, events, v.1, c, j)
    decreases j
  {
    assert j > 0;
    assert Leads(states[j - 1], events[j - 1], states[j], hash);
    if Image(v.1) in states[j - 1].names {
      assert LostAt(states, events, v.1, j - 1, j);
    } else {
      MissingWasLost(states, events, hash, v, j - 1);
      var c: nat :| LostAt(states, events, v.1, c, j - 1);
      assert LostAt(states, events, v.1, c, j);
    }
  }

  /** The request is one of a pass that read the records at `p`. */
  predicate IsOfPass(states: seq<State>, events: seq<Event>, p: nat, j: nat)
    requires |states| == |events| + 1 && p <= j < |events|
  {
    events[j].Asks? && events[j].have == PreferredVersion(events[j].image, states[p].held)
  }

  /**
   * A recorded image is not fetched again. In every run from records that
   * have their files, a pass that read a record of the image asks for a
   * version that is there, and then changes neither files nor records, if and
   * only if no power cut lost that version's file for good. Without power
   * cuts no later pass ever fetches it.
   */
  lemma RecordedIsKeptExactlyWhen(states: seq<State>, events: seq<Event>, hash: Bytes -> string, p: nat, j: nat)
    requires IsRun(states, events, hash) && Backed(states[0].held, states[0].names)
    requires p <= j < |events| && IsOfPass(states, events, p, j) && HasVersion(states[p].held, events[j].image.name)
    ensures events[j].have.Some?
    ensures
      var digest := events[j].have.value;
      Image(digest) in states[j].names <==> !exists c: nat :: LostAt(states, events, digest, c, j)
    ensures Image(events[j].have.value) in states[j].names ==>
              && states[j + 1].names == states[j].names
              && forall v :: v in states[j + 1].held <==> v in states[j].held
  {
    var v := (events[j].image.name, events[j].have.value);
    assert v in states[p].held;
    RecordsStay(states, events, hash, v, p, j);
    if Image(v.1) !in states[j].names {
      MissingWasLost(states, events, hash, v, j);
    }
    assert Leads(states[j], events[j], states[j + 1], hash);
  }
}
