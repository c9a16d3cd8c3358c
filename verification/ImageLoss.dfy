/**
 * When a published image can go missing (bentod/src/runnerd.rs, `fetch_into`).
 * The file is synced before it is renamed, the directory is not, so a power
 * cut may undo a rename whose answer has long been recorded.
 */
module ImageLoss {
  import opened ImageFetch

  const BLANK: Disk := Disk(map[], map[], map[], {})

  /** This step puts a file under the image's name. */
  predicate Publishes(d: Disk, ev: Event, hash: Bytes -> string, digest: string) {
    && ev.Rename? && ev.task in d.fetches && d.fetches[ev.task].durable
    && Partial(d.fetches[ev.task].id) in d.names && hash(d.fetches[ev.task].hashed) == digest
  }

  /** The image was published after the last power cut. */
  predicate NamedSinceCut(events: seq<Event>, hash: Bytes -> string, digest: string)
    decreases |events|
  {
    && events != []
    && (var before, ev := events[..|events| - 1], events[|events| - 1];
        && !ev.PowerCut?
        && (Publishes(Run(BLANK, before, hash), ev, hash, digest) || NamedSinceCut(before, hash, digest)))
  }

  ghost predicate SamePartials(a: map<Name, nat>, b: map<Name, nat>) {
    forall id :: && (Partial(id) in a <==> Partial(id) in b)
                 && (Partial(id) in a ==> a[Partial(id)] == b[Partial(id)])
  }

  /** The same step, except perhaps for which image names a power cut left. */
  ghost predicate SameButLost(a: Event, b: Event) {
    a == b || (a.PowerCut? && b.PowerCut? && a.garbage == b.garbage && SamePartials(a.names, b.names))
  }

  ghost predicate AllSameButLost(a: seq<Event>, b: seq<Event>) {
    |a| == |b| && forall i :: 0 <= i < |a| ==> SameButLost(a[i], b[i])
  }

  /** Two disks that differ in image names at most. */
  ghost predicate Alike(d: Disk, e: Disk) {
    d.files == e.files && d.fetches == e.fetches && d.published == e.published && SamePartials(d.names, e.names)
  }

  /** No step but a power cut looks at image names, so nothing tells such disks apart. */
  lemma StepKeepsAlike(d: Disk, e: Disk, a: Event, b: Event, hash: Bytes -> string)
    requires Alike(d, e) && SameButLost(a, b)
    ensures Alike(Do(d, a, hash), Do(e, b, hash))
  {
  }

  lemma {:induction false} RunsStayAlike(a: seq<Event>, b: seq<Event>, hash: Bytes -> string, digest: string)
    requires AllSameButLost(a, b)
    ensures Alike(Run(BLANK, a, hash), Run(BLANK, b, hash))
    ensures NamedSinceCut(a, hash, digest) <==> NamedSinceCut(b, hash, digest)
    decreases |a|
  {
    if a != [] {
      var n := |a| - 1;
      RunsStayAlike(a[..n], b[..n], hash, digest);
      StepKeepsAlike(Run(BLANK, a[..n], hash), Run(BLANK, b[..n], hash), a[n], b[n], hash);
    }
  }

  /** Only a power cut takes an image name away. */
  lemma OnlyCutsLose(d: Disk, ev: Event, hash: Bytes -> string, digest: string)
    requires !ev.PowerCut?
    ensures Image(digest) in Do(d, ev, hash).names <==> Image(digest) in d.names || Publishes(d, ev, hash, digest)
  {
  }

  lemma {:induction false} NamedIsThere(events: seq<Event>, hash: Bytes -> string, digest: string)
    requires NamedSinceCut(events, hash, digest)
    ensures Image(digest) in Run(BLANK, events, hash).names
    decreases |events|
  {
    var before, ev := events[..|events| - 1], events[|events| - 1];
    OnlyCutsLose(Run(BLANK, before, hash), ev, hash, digest);
    if NamedSinceCut(before, hash, digest) {
      NamedIsThere(before, hash, digest);
    }
  }

  /** The same run, with every power cut losing the image. */
  function Losing(events: seq<Event>, digest: string): (r: seq<Event>)
    ensures |r| == |events|
    ensures forall i :: 0 <= i < |r| ==>
              r[i] == if events[i].PowerCut? then PowerCut(events[i].garbage, events[i].names - {Image(digest)}) else events[i]
  {
    seq(|events|, i requires 0 <= i < |events| =>
      if events[i].PowerCut? then PowerCut(events[i].garbage, events[i].names - {Image(digest)}) else events[i])
  }

  lemma {:induction false} LosingLeavesOnlyNamed(events: seq<Event>, hash: Bytes -> string, digest: string)
    requires forall i :: 0 <= i < |events| && events[i].PowerCut? ==> Image(digest) !in events[i].names
    requires Image(digest) in Run(BLANK, events, hash).names
    ensures NamedSinceCut(events, hash, digest)
    decreases |events|
  {
    var before, ev := events[..|events| - 1], events[|events| - 1];
    if !ev.PowerCut? {
      OnlyCutsLose(Run(BLANK, before, hash), ev, hash, digest);
      if Image(digest) in Run(BLANK, before, hash).names {
        LosingLeavesOnlyNamed(before, hash, digest);
      }
    }
  }

  /**
   * When a recorded version is sure to have its file. In every run of
   * fetches, failures, deaths and power cuts: the image is there for every
   * way the power cuts may have turned out, if and only if it was published
   * after the last of them. So one power cut is enough to make any record
   * doubtful, until the image is fetched again.
   */
  lemma FileIsCertainExactlyWhen(events: seq<Event>, hash: Bytes -> string, digest: string)
    ensures (forall other: seq<Event> :: AllSameButLost(events, other) ==> Image(digest) in Run(BLANK, other, hash).names)
            <==> NamedSinceCut(events, hash, digest)
  {
    if NamedSinceCut(events, hash, digest) {
      forall other: seq<Event> | AllSameButLost(events, other)
        ensures Image(digest) in Run(BLANK, other, hash).names
      {
        RunsStayAlike(events, other, hash, digest);
        NamedIsThere(other, hash, digest);
      }
    } else {
      var other := Losing(events, digest);
      assert AllSameButLost(events, other);
      RunsStayAlike(events, other, hash, digest);
      if Image(digest) in Run(BLANK, other, hash).names {
        LosingLeavesOnlyNamed(other, hash, digest);
        assert false;
      }
    }
  }
}
