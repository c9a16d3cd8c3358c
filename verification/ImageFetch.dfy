/**
 * Content-addressed image files on a runner (bentod/src/runnerd.rs,
 * `fetch_into` and `ensure_image`). `hash` stands for SHA-256 written in hex;
 * nothing is assumed about it.
 */
module ImageFetch {
  import opened Options
  import opened Checksums

  type Bytes = seq<bv8>

  const U64_MAX: nat := 0xFFFF_FFFF_FFFF_FFFF

  function SaturatingAdd(size: nat, more: nat): nat {
    if size + more > U64_MAX then U64_MAX else size + more
  }

  // ------------------------------------------------------------------
  // One download
  // ------------------------------------------------------------------

  /** What the response and the disk do with one chunk. */
  datatype Piece =
    | Stored(bytes: Bytes)
    | WriteFails(bytes: Bytes, kept: Bytes)
    | ReadFails

  function Content(pieces: seq<Piece>): Bytes
    decreases |pieces|
  {
    if pieces == [] then []
    else
      var last := pieces[|pieces| - 1];
      Content(pieces[..|pieces| - 1]) + (if last.Stored? then last.bytes else [])
  }

  predicate Complete(pieces: seq<Piece>) {
    forall i :: 0 <= i < |pieces| ==> pieces[i].Stored?
  }

  /**
   * The loop that feeds the hasher and the file. It keeps hasher, file and
   * size in agreement on every chunk, and succeeds exactly when every chunk
   * was read and stored and the file was flushed and synced.
   */
  method Download(pieces: seq<Piece>, flushes: bool, syncs: bool)
    returns (ok: bool, hashed: Bytes, file: Bytes, size: nat)
    ensures ok <==> Complete(pieces) && flushes && syncs
    ensures ok ==> hashed == file == Content(pieces) && size == SaturatingAdd(0, |file|)
    ensures ok ==> size == if |file| < 0x1_0000_0000_0000_0000 then |file| else 0xFFFF_FFFF_FFFF_FFFF
  {
    hashed, file, size, ok := [], [], 0, true;
    var i := 0;
    while i < |pieces|
      invariant 0 <= i <= |pieces|
      invariant ok && Complete(pieces[..i])
      invariant hashed == file == Content(pieces[..i]) && size == SaturatingAdd(0, |file|)
    {
      assert pieces[..i + 1][..i] == pieces[..i];
      match pieces[i] {
        case ReadFails =>
          return false, hashed, file, size;
        case WriteFails(bytes, kept) =>
          hashed := hashed + bytes;
          size := SaturatingAdd(size, |bytes|);
          return false, hashed, file + kept, size;
        case Stored(bytes) =>
          hashed := hashed + bytes;
          size := SaturatingAdd(size, |bytes|);
          file := file + bytes;
      }
      i := i + 1;
    }
    assert pieces[..|pieces|] == pieces;
    ok := flushes && syncs;
  }

  // ------------------------------------------------------------------
  // One runner's image directory
  // ------------------------------------------------------------------

  datatype Name = Partial(id: string) | Image(digest: string)

  /** What one attempt meets: the server, the disk, the rename and the clean-up. */
  datatype Attempt = Attempt(id: string, answers: bool, creates: bool, pieces: seq<Piece>, flushes: bool, syncs: bool,
                             renames: bool, removes: bool)

  datatype Fetched = Fetched(checksum: string, size: nat) | FetchFailed

  datatype Ensured = Ready(checksum: string, alreadyPresent: bool, size: nat) | Refused

  predicate Succeeds(a: Attempt) {
    a.answers && a.creates && Complete(a.pieces) && a.flushes && a.syncs && a.renames
  }

  /** Every image name tells the truth about the content under it. */
  ghost predicate Truthful(names: map<Name, Bytes>, hash: Bytes -> string) {
    forall d :: Image(d) in names ==> hash(names[Image(d)]) == d
  }

  class Directory {
    var names: map<Name, Bytes>

    /**
     * A success adds exactly the image named by what was downloaded. A
     * failure leaves every image name as it was; at most the temporary file
     * stays behind.
     */
    method FetchInto(a: Attempt, hash: Bytes -> string) returns (r: Fetched)
      requires Partial(a.id) !in names
      modifies this
      ensures r.Fetched? <==> Succeeds(a)
      ensures r.Fetched? ==>
                && r == Fetched(DASHED + hash(Content(a.pieces)), SaturatingAdd(0, |Content(a.pieces)|))
                && names == old(names)[Image(hash(Content(a.pieces))) := Content(a.pieces)]
      ensures r.FetchFailed? ==> names - {Partial(a.id)} == old(names)
    {
      if !a.answers || !a.creates {
        return FetchFailed;
      }
      var partial := Partial(a.id);
      var ok, hashed, file, size := Download(a.pieces, a.flushes, a.syncs);
      names := names[partial := file];
      if !ok {
        if a.removes {
          names := names - {partial};
        }
        return FetchFailed;
      }
      var digest := hash(hashed);
      if !a.renames {
        if a.removes {
          names := names - {partial};
        }
        return FetchFailed;
      }
      names := (names - {partial})[Image(digest) := file];
      r := Fetched(DASHED + digest, size);
    }

    /**
     * The answer always names a file that is there and has that content; a
     * version the runner holds is never fetched and never replaced.
     */
    method EnsureImage(have: Option<string>, a: Attempt, hash: Bytes -> string) returns (r: Ensured)
      requires Partial(a.id) !in names && Truthful(names, hash)
      modifies this
      ensures Truthful(names, hash)
      ensures forall d :: Image(d) in old(names) ==> Image(d) in names
      ensures r.Ready? ==> exists d ::
                && r.checksum == DASHED + d && Image(d) in names && hash(names[Image(d)]) == d
                && r.size == SaturatingAdd(0, |names[Image(d)]|)
      ensures have.Some? && Address(have.value).None? ==> r == Refused && names == old(names)
      ensures have.Some? && Address(have.value).Some? && Image(Address(have.value).value) in old(names) ==>
                && names == old(names)
                && r.Ready? && r.alreadyPresent && r.checksum == DASHED + Address(have.value).value
      ensures r.Ready? && !r.alreadyPresent ==>
                && Succeeds(a) && r.checksum == DASHED + hash(Content(a.pieces))
                && Image(hash(Content(a.pieces))) in names
      ensures have.None? || (Address(have.value).Some? && Image(Address(have.value).value) !in old(names)) ==>
                (r.Ready? <==> Succeeds(a)) && (r.Ready? ==> !r.alreadyPresent)
      ensures forall n :: n in names && n !in old(names) ==>
                n == Partial(a.id) || (Succeeds(a) && n == Image(hash(Content(a.pieces))))
    {
      if have.Some? {
        var hex := Address(have.value);
        if hex.None? {
          return Refused;
        }
        if Image(hex.value) in names {
          assert hash(names[Image(hex.value)]) == hex.value;
          return Ready(DASHED + hex.value, true, SaturatingAdd(0, |names[Image(hex.value)]|));
        }
      }
      var fetched := FetchInto(a, hash);
      match fetched {
        case FetchFailed =>
          assert forall n :: n in names && n != Partial(a.id) ==> n in names - {Partial(a.id)};
          return Refused;
        case Fetched(checksum, size) =>
          assert Image(hash(Content(a.pieces))) in names;
          return Ready(checksum, false, size);
      }
    }
  }

  // ------------------------------------------------------------------
  // Any number of fetches at once, and crashes at any point
  // ------------------------------------------------------------------

  /** `synced` content survives a power cut; the rest may come back as anything. */
  datatype File = File(data: Bytes, synced: bool)

  /** A fetch in flight: its file, its hasher and whether the file is on the disk. */
  datatype Fetch = Fetch(id: string, file: nat, hashed: Bytes, size: nat, durable: bool)

  /**
   * The disk and the process. `published` remembers which file was ever put
   * under which image name, because a power cut may undo a rename but cannot
   * invent one.
   */
  datatype Disk = Disk(files: map<nat, File>, names: map<Name, nat>, fetches: map<nat, Fetch>,
                       published: set<(string, nat)>)

  datatype Event =
    | Begin(task: nat, id: string, file: nat)
    | Receive(task: nat, chunk: Bytes)
    | ReceivePart(task: nat, chunk: Bytes, kept: nat, removes: bool)
    | Sync(task: nat)
    | Rename(task: nat)
    | Fail(task: nat, removes: bool)
    | ProcessDies
    | PowerCut(garbage: map<nat, Bytes>, names: map<Name, nat>)

  function Write(files: map<nat, File>, file: nat, more: Bytes): map<nat, File>
    requires file in files
  {
    files[file := File(files[file].data + more, false)]
  }

  function Unlink(names: map<Name, nat>, id: string, removes: bool): map<Name, nat> {
    if removes then names - {Partial(id)} else names
  }

  /** After a power cut any names may be left, but every image name is one that some rename made. */
  function Surviving(d: Disk, names: map<Name, nat>): map<Name, nat> {
    map n | n in names && names[n] in d.files && (n.Image? ==> (n.digest, names[n]) in d.published) :: names[n]
  }

  function AfterCut(files: map<nat, File>, garbage: map<nat, Bytes>): map<nat, File> {
    map f | f in files :: if files[f].synced || f !in garbage then files[f].(synced := true) else File(garbage[f], true)
  }

  /** One step. A step that is not possible changes nothing. */
  function Do(d: Disk, ev: Event, hash: Bytes -> string): Disk {
    match ev
    case Begin(task, id, file) =>
      if task in d.fetches || Partial(id) in d.names || file in d.files then d
      else Disk(d.files[file := File([], false)], d.names[Partial(id) := file],
                d.fetches[task := Fetch(id, file, [], 0, false)], d.published)
    case Receive(task, chunk) =>
      if !(task in d.fetches && !d.fetches[task].durable && d.fetches[task].file in d.files) then d
      else
        var f := d.fetches[task];
        d.(files := Write(d.files, f.file, chunk),
           fetches := d.fetches[task := f.(hashed := f.hashed + chunk, size := SaturatingAdd(f.size, |chunk|))])
    case ReceivePart(task, chunk, kept, removes) =>
      if !(task in d.fetches && !d.fetches[task].durable && d.fetches[task].file in d.files && kept <= |chunk|) then d
      else
        var f := d.fetches[task];
        d.(files := Write(d.files, f.file, chunk[..kept]), names := Unlink(d.names, f.id, removes),
           fetches := d.fetches - {task})
    case Sync(task) =>
      if !(task in d.fetches && !d.fetches[task].durable && d.fetches[task].file in d.files) then d
      else
        var f := d.fetches[task];
        d.(files := d.files[f.file := d.files[f.file].(synced := true)],
           fetches := d.fetches[task := f.(durable := true)])
    case Rename(task) =>
      if !(task in d.fetches && d.fetches[task].durable && Partial(d.fetches[task].id) in d.names) then d
      else
        var f := d.fetches[task];
        var file := d.names[Partial(f.id)];
        d.(names := (d.names - {Partial(f.id)})[Image(hash(f.hashed)) := file],
           fetches := d.fetches - {task},
           published := d.published + {(hash(f.hashed), file)})
    case Fail(task, removes) =>
      if task !in d.fetches then d
      else d.(names := Unlink(d.names, d.fetches[task].id, removes), fetches := d.fetches - {task})
    case ProcessDies => d.(fetches := map[])
    case PowerCut(garbage, names) =>
      Disk(AfterCut(d.files, garbage), Surviving(d, names), map[], d.published)
  }

  function Run(d: Disk, events: seq<Event>, hash: Bytes -> string): Disk
    decreases |events|
  {
    if events == [] then d else Do(Run(d, events[..|events| - 1], hash), events[|events| - 1], hash)
  }

  /** A published file is complete, on the disk, and out of every fetch's reach. */
  ghost predicate PublishedInv(d: Disk, hash: Bytes -> string) {
    && (forall p :: p in d.published ==>
          && p.1 in d.files && d.files[p.1].synced && hash(d.files[p.1].data) == p.0
          && (forall t :: t in d.fetches ==> d.fetches[t].file != p.1))
    && (forall n :: n in d.names ==> d.names[n] in d.files && (n.Image? ==> (n.digest, d.names[n]) in d.published))
  }

  /** Hasher, file and size of every fetch in flight agree. */
  ghost predicate FetchInv(d: Disk) {
    && (forall t :: t in d.fetches ==>
          var f := d.fetches[t];
          && f.file in d.files && d.files[f.file].data == f.hashed
          && f.size == SaturatingAdd(0, |f.hashed|)
          && (f.durable ==> d.files[f.file].synced)
          && Partial(f.id) in d.names && d.names[Partial(f.id)] == f.file)
    && (forall t, u :: t in d.fetches && u in d.fetches && t != u ==>
          d.fetches[t].file != d.fetches[u].file && d.fetches[t].id != d.fetches[u].id)
  }

  lemma WritingKeepsFiles(d: Disk, ev: Event, hash: Bytes -> string)
    requires FetchInv(d) && (ev.Receive? || ev.Sync?)
    ensures FetchInv(Do(d, ev, hash))
  {
  }

  lemma StepKeepsFiles(d: Disk, ev: Event, hash: Bytes -> string)
    requires PublishedInv(d, hash) && FetchInv(d)
    ensures FetchInv(Do(d, ev, hash))
  {
    if ev.Receive? || ev.Sync? {
      WritingKeepsFiles(d, ev, hash);
    }
  }

  lemma StepKeepsNames(d: Disk, ev: Event, hash: Bytes -> string)
    requires PublishedInv(d, hash) && FetchInv(d)
    ensures PublishedInv(Do(d, ev, hash), hash)
  {
  }

  lemma {:induction false} RunKeepsDisk(d: Disk, events: seq<Event>, hash: Bytes -> string)
    requires d == Disk(map[], map[], map[], {})
    ensures PublishedInv(Run(d, events, hash), hash) && FetchInv(Run(d, events, hash))
    decreases |events|
  {
    if events != [] {
      RunKeepsDisk(d, events[..|events| - 1], hash);
      StepKeepsFiles(Run(d, events[..|events| - 1], hash), events[|events| - 1], hash);
      StepKeepsNames(Run(d, events[..|events| - 1], hash), events[|events| - 1], hash);
    }
  }

  /**
   * A content-addressed name is proof of content. With any number of fetches
   * interleaved, any of them failing anywhere, the process dying and the
   * power going at any point, every file under an image name is complete, is
   * on the disk, and hashes to the name.
   */
  lemma NameIsProof(events: seq<Event>, hash: Bytes -> string, digest: string)
    requires Image(digest) in Run(Disk(map[], map[], map[], {}), events, hash).names
    ensures
      var d := Run(Disk(map[], map[], map[], {}), events, hash);
      && d.names[Image(digest)] in d.files
      && d.files[d.names[Image(digest)]].synced
      && hash(d.files[d.names[Image(digest)]].data) == digest
  {
    RunKeepsDisk(Disk(map[], map[], map[], {}), events, hash);
  }

  /** At every moment a fetch in flight has hashed exactly what its file holds. */
  lemma HasherMatchesFile(events: seq<Event>, hash: Bytes -> string, task: nat)
    requires task in Run(Disk(map[], map[], map[], {}), events, hash).fetches
    ensures
      var d := Run(Disk(map[], map[], map[], {}), events, hash);
      && d.fetches[task].file in d.files
      && d.fetches[task].hashed == d.files[d.fetches[task].file].data
      && d.fetches[task].size == SaturatingAdd(0, |d.fetches[task].hashed|)
  {
    RunKeepsDisk(Disk(map[], map[], map[], {}), events, hash);
  }

  // ------------------------------------------------------------------
  // One fetch among the others
  // ------------------------------------------------------------------

  function Joined(chunks: seq<Bytes>): Bytes
    decreases |chunks|
  {
    if chunks == [] then [] else Joined(chunks[..|chunks| - 1]) + chunks[|chunks| - 1]
  }

  /** A fetch that has begun and received these chunks. */
  function Received(d: Disk, task: nat, id: string, file: nat, chunks: seq<Bytes>, hash: Bytes -> string): Disk
    decreases |chunks|
  {
    if chunks == [] then Do(d, Begin(task, id, file), hash)
    else Do(Received(d, task, id, file, chunks[..|chunks| - 1], hash), Receive(task, chunks[|chunks| - 1]), hash)
  }

  /** Nothing of this task, this temporary name or this file is there yet. */
  predicate CanBegin(d: Disk, task: nat, id: string, file: nat) {
    task !in d.fetches && Partial(id) !in d.names && file !in d.files
  }

  /** The disk with one more fetch on it, that far. */
  function Fetching(d: Disk, task: nat, id: string, file: nat, data: Bytes, durable: bool): Disk {
    Disk(d.files[file := File(data, durable)], d.names[Partial(id) := file],
         d.fetches[task := Fetch(id, file, data, SaturatingAdd(0, |data|), durable)], d.published)
  }

  lemma ReceiveGoesOn(d: Disk, task: nat, id: string, file: nat, data: Bytes, chunk: Bytes, hash: Bytes -> string)
    ensures Do(Fetching(d, task, id, file, data, false), Receive(task, chunk), hash)
            == Fetching(d, task, id, file, data + chunk, false)
  {
    var after := Do(Fetching(d, task, id, file, data, false), Receive(task, chunk), hash);
    assert after.files == d.files[file := File(data + chunk, false)];
  }

  lemma SyncGoesOn(d: Disk, task: nat, id: string, file: nat, data: Bytes, hash: Bytes -> string)
    ensures Do(Fetching(d, task, id, file, data, false), Sync(task), hash) == Fetching(d, task, id, file, data, true)
  {
    var after := Do(Fetching(d, task, id, file, data, false), Sync(task), hash);
    assert after.files == d.files[file := File(data, true)];
  }

  lemma RenamePublishes(d: Disk, task: nat, id: string, file: nat, data: Bytes, hash: Bytes -> string)
    requires CanBegin(d, task, id, file)
    ensures Do(Fetching(d, task, id, file, data, true), Rename(task), hash)
            == Disk(d.files[file := File(data, true)], d.names[Image(hash(data)) := file], d.fetches,
                    d.published + {(hash(data), file)})
  {
    var synced := Fetching(d, task, id, file, data, true);
    assert synced.fetches - {task} == d.fetches;
    assert synced.names - {Partial(id)} == d.names;
  }

  lemma {:induction false} ReceivedIsStored(d: Disk, task: nat, id: string, file: nat, chunks: seq<Bytes>,
                                            hash: Bytes -> string)
    requires CanBegin(d, task, id, file)
    ensures Received(d, task, id, file, chunks, hash) == Fetching(d, task, id, file, Joined(chunks), false)
    decreases |chunks|
  {
    if chunks != [] {
      var front, last := chunks[..|chunks| - 1], chunks[|chunks| - 1];
      ReceivedIsStored(d, task, id, file, front, hash);
      ReceiveGoesOn(d, task, id, file, Joined(front), last, hash);
    }
  }

  /**
   * A fetch among any others does what it would do alone: synced and renamed,
   * it leaves exactly one more name, that of all it received, and no trace of
   * the temporary one.
   */
  lemma FetchPublishesWhatItReceived(d: Disk, task: nat, id: string, file: nat, chunks: seq<Bytes>, hash: Bytes -> string)
    requires CanBegin(d, task, id, file)
    ensures
      var data := Joined(chunks);
      Do(Do(Received(d, task, id, file, chunks, hash), Sync(task), hash), Rename(task), hash)
      == Disk(d.files[file := File(data, true)], d.names[Image(hash(data)) := file], d.fetches,
              d.published + {(hash(data), file)})
  {
    ReceivedIsStored(d, task, id, file, chunks, hash);
    SyncGoesOn(d, task, id, file, Joined(chunks), hash);
    RenamePublishes(d, task, id, file, Joined(chunks), hash);
  }

  /**
   * A fetch that fails leaves every image name as it was, and the temporary
   * name only if it could not be removed.
   */
  lemma FailedFetchPublishesNothing(d: Disk, task: nat, id: string, file: nat, chunks: seq<Bytes>, removes: bool,
                                    hash: Bytes -> string)
    requires CanBegin(d, task, id, file)
    ensures
      var failed := Do(Received(d, task, id, file, chunks, hash), Fail(task, removes), hash);
      failed.fetches == d.fetches && failed.names == if removes then d.names else d.names[Partial(id) := file]
  {
    ReceivedIsStored(d, task, id, file, chunks, hash);
    var begun := Received(d, task, id, file, chunks, hash);
    assert begun.fetches - {task} == d.fetches;
    assert begun.names - {Partial(id)} == d.names;
  }

  /** A write that stored a part fails the fetch, and that part stays in its file. */
  lemma PartialWriteFails(d: Disk, task: nat, chunk: Bytes, kept: nat, removes: bool, hash: Bytes -> string)
    requires task in d.fetches && !d.fetches[task].durable && d.fetches[task].file in d.files && kept <= |chunk|
    ensures
      var f := d.fetches[task].file;
      var stored := d.files[f].data + chunk[..kept];
      Do(d, ReceivePart(task, chunk, kept, removes), hash)
      == Do(d, Fail(task, removes), hash).(files := d.files[f := File(stored, false)])
  {
  }

  /** When the process died, nothing that was under way can publish any more. */
  lemma DeadProcessPublishesNothing(d: Disk, task: nat, hash: Bytes -> string)
    ensures
      var dead := Do(d, ProcessDies, hash);
      && dead.names == d.names && dead.files == d.files
      && Do(dead, Sync(task), hash) == dead && Do(dead, Rename(task), hash) == dead
  {
  }

  /** What a power cut can do: it spares the content of exactly the synced files, and can undo or redo any rename. */
  lemma CutSparesExactlySynced(d: Disk, file: nat, garbage: Bytes, digest: string, hash: Bytes -> string)
    requires file in d.files && garbage != d.files[file].data
    ensures
      var after := Do(d, PowerCut(map[file := garbage], map[Image(digest) := file]), hash);
      && (after.files[file].data == d.files[file].data <==> d.files[file].synced)
      && after.fetches == map[]
      && (Image(digest) in after.names <==> (digest, file) in d.published)
      && Do(d, PowerCut(map[file := garbage], map[]), hash).names == map[]
  {
  }
}
