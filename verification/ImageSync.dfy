/**
 * The controller's image sync against one runner's directory
 * (bentod/src/runners.rs, `ImageSync`; crates/store/src/runners.rs,
 * `record_host_image` and `host_images`).
 */
module ImageSync {
  import opened Options
  import opened Checksums
  import opened ImageFetch

  datatype ImageRow = ImageRow(name: string, url: string, current: Option<string>)

  /** One version recorded for the machine: image name and bare checksum. */
  type Version = (string, string)

  /** What happens to one request: delivered, worked on, and its answer heard. */
  datatype Call = Call(attempt: Attempt, delivered: bool, heard: bool)

  function FirstVersion(held: seq<Version>, name: string): (r: Option<string>)
    ensures r.Some? <==> HasVersion(held, name)
    ensures r.Some? ==> (name, r.value) in held
  {
    if held == [] then None
    else if held[0].0 == name then Some(held[0].1)
    else FirstVersion(held[1..], name)
  }

  predicate HasVersion(held: seq<Version>, name: string) {
    exists v :: v in held && v.0 == name
  }

  /** The current version if the machine has it, else the newest record of the image. */
  function PreferredVersion(image: ImageRow, held: seq<Version>): (r: Option<string>)
    ensures r.Some? <==> HasVersion(held, image.name)
    ensures r.Some? ==> (image.name, r.value) in held
    ensures image.current.Some? && (image.name, image.current.value) in held ==> r == image.current
  {
    if image.current.Some? && (image.name, image.current.value) in held then image.current
    else FirstVersion(held, image.name)
  }

  /** The record is added or renewed, and comes first; nothing is ever replaced. */
  function Record(held: seq<Version>, v: Version): (r: seq<Version>)
    ensures forall w :: w in r <==> w == v || w in held
  {
    [v] + Without(held, v)
  }

  function Without(held: seq<Version>, v: Version): (r: seq<Version>)
    ensures forall w :: w in r <==> w in held && w != v
  {
    if held == [] then []
    else if held[0] == v then Without(held[1..], v)
    else [held[0]] + Without(held[1..], v)
  }

  ghost predicate WritesHex(hash: Bytes -> string) {
    forall data: Bytes :: IsAddress(hash(data))
  }

  /** Every recorded version is a content address. */
  predicate Named(held: seq<Version>) {
    forall v :: v in held ==> IsAddress(v.1)
  }

  /** Every recorded version is a file the machine has. */
  predicate Backed(held: seq<Version>, names: map<Name, Bytes>) {
    forall v :: v in held ==> Image(v.1) in names
  }

  /** Some recorded version of the image is a file the machine has. */
  predicate HasFile(held: seq<Version>, names: map<Name, Bytes>, image: string) {
    exists v :: v in held && v.0 == image && Image(v.1) in names
  }

  /** The machine has no record of the image, or lost the file of the version it would be asked for. */
  predicate Lacks(image: ImageRow, held: seq<Version>, names: map<Name, Bytes>) {
    var have := PreferredVersion(image, held);
    have.None? || Image(have.value) !in names
  }

  predicate FreshAttempts(calls: seq<Call>, from: nat, names: map<Name, Bytes>) {
    && (forall i :: from <= i < |calls| ==> Partial(calls[i].attempt.id) !in names)
    && (forall i, j :: 0 <= i < j < |calls| ==> calls[i].attempt.id != calls[j].attempt.id)
  }

  /** The request for an image the machine lacked fetched this version. */
  predicate Fetches(image: ImageRow, call: Call, held: seq<Version>, names: map<Name, Bytes>, digest: string,
                    hash: Bytes -> string) {
    Lacks(image, held, names) && Succeeds(call.attempt) && digest == hash(Content(call.attempt.pieces))
  }

  /** One of the first `n` requests fetched this version. */
  predicate FetchedByOne(images: seq<ImageRow>, calls: seq<Call>, n: nat, held: seq<Version>, names: map<Name, Bytes>,
                         digest: string, hash: Bytes -> string)
    requires n <= |images| == |calls|
  {
    exists k :: 0 <= k < n && Fetches(images[k], calls[k], held, names, digest, hash)
  }

  /** Nothing on the list is lacking. */
  predicate NothingLacking(images: seq<ImageRow>, held: seq<Version>, names: map<Name, Bytes>) {
    forall k :: 0 <= k < |images| ==> !Lacks(images[k], held, names)
  }

  /** One of the images under this name was lacking. */
  predicate LackedUnder(images: seq<ImageRow>, held: seq<Version>, names: map<Name, Bytes>, name: string) {
    exists k :: 0 <= k < |images| && images[k].name == name && Lacks(images[k], held, names)
  }

  predicate AllHaveFiles(images: seq<ImageRow>, n: nat, held: seq<Version>, names: map<Name, Bytes>)
    requires n <= |images|
  {
    forall k :: 0 <= k < n ==> HasFile(held, names, images[k].name)
  }

  predicate AllAnswered(calls: seq<Call>) {
    forall k :: 0 <= k < |calls| ==> calls[k].delivered && calls[k].heard && Succeeds(calls[k].attempt)
  }

  /** No image file goes away. */
  ghost predicate KeepsImages(before: map<Name, Bytes>, after: map<Name, Bytes>) {
    forall d :: Image(d) in before ==> Image(d) in after
  }

  lemma MoreKeepsFiles(images: seq<ImageRow>, n: nat, few: seq<Version>, more: seq<Version>, before: map<Name, Bytes>,
                       after: map<Name, Bytes>)
    requires n <= |images| && AllHaveFiles(images, n, few, before)
    requires (forall v :: v in few ==> v in more) && KeepsImages(before, after)
    ensures AllHaveFiles(images, n, more, after)
  {
    forall k | 0 <= k < n ensures HasFile(more, after, images[k].name) {
      var v :| v in few && v.0 == images[k].name && Image(v.1) in before;
      assert v in more;
    }
  }

  /**
   * What one request may change. A version that is recorded and there is
   * kept: nothing is fetched and the record set stays the same. No image file
   * goes away, and a new record has its file.
   */
  ghost predicate Asked(name: string, have: Option<string>, call: Call, held: seq<Version>, names: map<Name, Bytes>,
                        held': seq<Version>, names': map<Name, Bytes>, hash: Bytes -> string) {
    && KeepsImages(names, names')
    && (forall v :: v in held ==> v in held')
    && (forall v :: v in held' && v !in held ==> v.0 == name && Image(v.1) in names')
    && (have.Some? && Image(have.value) in names ==> names' == names && forall v :: v in held' <==> v in held)
    && (forall n :: n in names' && n !in names ==>
          && (have.None? || Image(have.value) !in names)
          && (n == Partial(call.attempt.id) || (Succeeds(call.attempt) && n == Image(hash(Content(call.attempt.pieces))))))
    && (call.delivered && call.heard && Succeeds(call.attempt) ==> HasFile(held', names', name))
  }

  /** What the first `n` requests of a pass have changed, since `known` and `files`. */
  ghost predicate Passed(images: seq<ImageRow>, calls: seq<Call>, n: nat, known: seq<Version>, files: map<Name, Bytes>,
                         held: seq<Version>, names: map<Name, Bytes>, hash: Bytes -> string)
    requires n <= |images| == |calls|
  {
    && KeepsImages(files, names)
    && (forall v :: v in known ==> v in held)
    && (forall v :: v in held && v !in known ==> Image(v.1) in names && LackedUnder(images, known, files, v.0))
    && (forall d :: Image(d) in names && Image(d) !in files ==> FetchedByOne(images, calls, n, known, files, d, hash))
    && (NothingLacking(images, known, files) ==> names == files && forall v :: v in held <==> v in known)
    && (AllAnswered(calls) ==> AllHaveFiles(images, n, held, names))
  }

  lemma MoreFetched(images: seq<ImageRow>, calls: seq<Call>, n: nat, known: seq<Version>, files: map<Name, Bytes>,
                    names: map<Name, Bytes>, names': map<Name, Bytes>, hash: Bytes -> string)
    requires n < |images| == |calls|
    requires forall d :: Image(d) in names && Image(d) !in files ==> FetchedByOne(images, calls, n, known, files, d, hash)
    requires forall d :: Image(d) in names' && Image(d) !in names ==> Fetches(images[n], calls[n], known, files, d, hash)
    ensures forall d :: Image(d) in names' && Image(d) !in files ==>
              FetchedByOne(images, calls, n + 1, known, files, d, hash)
  {
    forall d | Image(d) in names' && Image(d) !in files
      ensures FetchedByOne(images, calls, n + 1, known, files, d, hash)
    {
      if Image(d) in names {
        var k :| 0 <= k < n && Fetches(images[k], calls[k], known, files, d, hash);
      } else {
        assert Fetches(images[n], calls[n], known, files, d, hash);
      }
    }
  }

  /** The files of the first requests stay, and the next one has its own. */
  lemma FilesGoOn(images: seq<ImageRow>, calls: seq<Call>, n: nat, held: seq<Version>, names: map<Name, Bytes>,
                  have: Option<string>, held': seq<Version>, names': map<Name, Bytes>, hash: Bytes -> string)
    requires n < |images| == |calls| && AllAnswered(calls) && AllHaveFiles(images, n, held, names)
    requires Asked(images[n].name, have, calls[n], held, names, held', names', hash)
    ensures AllHaveFiles(images, n + 1, held', names')
  {
    MoreKeepsFiles(images, n, held, held', names, names');
    assert HasFile(held', names', images[n].name);
  }

  lemma PassGoesOn(images: seq<ImageRow>, calls: seq<Call>, n: nat, known: seq<Version>, files: map<Name, Bytes>,
                   held: seq<Version>, names: map<Name, Bytes>, held': seq<Version>, names': map<Name, Bytes>,
                   hash: Bytes -> string)
    requires n < |images| == |calls| && Passed(images, calls, n, known, files, held, names, hash)
    requires Asked(images[n].name, PreferredVersion(images[n], known), calls[n], held, names, held', names', hash)
    ensures Passed(images, calls, n + 1, known, files, held', names', hash)
  {
    var have := PreferredVersion(images[n], known);
    if !(have.Some? && Image(have.value) in names) {
      assert Lacks(images[n], known, files);
      assert LackedUnder(images, known, files, images[n].name);
    }
    MoreFetched(images, calls, n, known, files, names, names', hash);
    if AllAnswered(calls) {
      FilesGoOn(images, calls, n, held, names, have, held', names', hash);
    }
  }

  class Controller {
    var held: seq<Version>

    /** One `ensure`: what `Asked` allows, and file names stay truthful. */
    method Ensure(name: string, have: Option<string>, call: Call, runner: Directory, hash: Bytes -> string)
      requires Partial(call.attempt.id) !in runner.names
      requires WritesHex(hash) && Truthful(runner.names, hash) && Named(held)
      requires have.Some? ==> (name, have.value) in held
      modifies this, runner
      ensures Truthful(runner.names, hash) && Named(held)
      ensures Asked(name, have, call, old(held), old(runner.names), held, runner.names, hash)
    {
      if !call.delivered {
        return;
      }
      var reply := Ask(have, call, runner, hash);
      if reply.Refused? || !call.heard {
        return;
      }
      var v := (name, Bare(reply.checksum));
      held := Record(held, v);
      assert v in held && v.0 == name;
    }

    /** The runner's half of one request, and how the controller reads the answer. */
    method Ask(have: Option<string>, call: Call, runner: Directory, hash: Bytes -> string) returns (reply: Ensured)
      requires Partial(call.attempt.id) !in runner.names
      requires WritesHex(hash) && Truthful(runner.names, hash)
      requires have.Some? ==> IsAddress(have.value)
      modifies runner
      ensures Truthful(runner.names, hash) && KeepsImages(old(runner.names), runner.names)
      ensures reply.Ready? ==> IsAddress(Bare(reply.checksum)) && Image(Bare(reply.checksum)) in runner.names
      ensures have.Some? && Image(have.value) in old(runner.names) ==>
                runner.names == old(runner.names) && reply.Ready? && Bare(reply.checksum) == have.value
      ensures forall n :: n in runner.names && n !in old(runner.names) ==>
                && (have.None? || Image(have.value) !in old(runner.names))
                && (n == Partial(call.attempt.id)
                    || (Succeeds(call.attempt) && n == Image(hash(Content(call.attempt.pieces)))))
      ensures Succeeds(call.attempt) ==> reply.Ready?
    {
      if have.Some? {
        FormsAgree(have.value);
      }
      reply := runner.EnsureImage(have, call.attempt, hash);
      if reply.Ready? {
        ghost var d :| reply.checksum == DASHED + d && Image(d) in runner.names && hash(runner.names[Image(d)]) == d;
        FormsAgree(d);
      }
    }

    /**
     * One `sync_host` over the allowlist, whatever was lost before it. The
     * only images fetched, and the only ones that get a new record, are those
     * the machine lacked; when it lacks none the pass changes nothing at all,
     * neither the files nor the records. No record loses its file, so a
     * machine that never lost one never lacks a recorded image again. A pass
     * that is answered and succeeds leaves every image with a file on record.
     */
    method SyncHost(images: seq<ImageRow>, calls: seq<Call>, runner: Directory, hash: Bytes -> string)
      requires |calls| == |images| && FreshAttempts(calls, 0, runner.names)
      requires WritesHex(hash) && Truthful(runner.names, hash) && Named(held)
      modifies this, runner
      ensures Truthful(runner.names, hash) && Named(held)
      ensures Passed(images, calls, |images|, old(held), old(runner.names), held, runner.names, hash)
      ensures Backed(old(held), old(runner.names)) ==> Backed(held, runner.names)
    {
      var known := held;
      ghost var files := runner.names;
      var i := 0;
      while i < |images|
        invariant 0 <= i <= |images| && FreshAttempts(calls, i, runner.names)
        invariant Truthful(runner.names, hash) && Named(held)
        invariant Passed(images, calls, i, known, files, held, runner.names, hash)
      {
        ghost var names, records := runner.names, held;
        var have := PreferredVersion(images[i], known);
        Ensure(images[i].name, have, calls[i], runner, hash);
        PassGoesOn(images, calls, i, known, files, records, names, held, runner.names, hash);
        i := i + 1;
      }
    }
  }

  // ------------------------------------------------------------------
  // After a file was lost
  // ------------------------------------------------------------------

  /** While every record has its file, only images without a record are lacking. */
  lemma BackedLacksExactlyWhen(image: ImageRow, held: seq<Version>, names: map<Name, Bytes>)
    requires Backed(held, names)
    ensures Lacks(image, held, names) <==> !HasVersion(held, image.name)
  {
  }

  /**
   * Whether one more fetch makes up for a lost file. A lacking image is no
   * longer lacking after a version of it was fetched and recorded, if and
   * only if the fetch brought back the current version or the current version
   * is not a record without a file. Otherwise every later pass asks for the
   * lost version and fetches again.
   */
  lemma RefetchSettlesExactlyWhen(image: ImageRow, held: seq<Version>, names: map<Name, Bytes>, digest: string,
                                  data: Bytes)
    requires Lacks(image, held, names)
    ensures
      var lost := image.current.Some? && (image.name, image.current.value) in held && Image(image.current.value) !in names;
      !Lacks(image, Record(held, (image.name, digest)), names[Image(digest) := data])
      <==> !lost || image.current == Some(digest)
  {
    var more := Record(held, (image.name, digest));
    assert more[0] == (image.name, digest);
    assert FirstVersion(more, image.name) == Some(digest);
  }
}
