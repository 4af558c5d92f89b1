/** Packing attachments into messages: every file is sent once or dropped with one note, within the request cap. */
module Uploads {
  import opened Basics

  const MAX_FILES_PER_MESSAGE: nat := 10

  /** `size` is None for a file that cannot be read, `shrunk` the size an image re-encodes to, if it can be. */
  datatype Attachment = Attachment(name: string, size: Option<nat>, shrunk: Option<nat>)

  /** A file as it goes into a message. */
  datatype Upload = Upload(original: Attachment, size: nat, downscaled: bool)

  datatype Note = Unavailable(a: Attachment) | TooLarge(a: Attachment) | Downscaled(a: Attachment)

  datatype Batch = Batch(uploads: seq<Upload>, notes: seq<Note>)

  /** `shrink_image`, which only returns a file under the cap. */
  function Shrink(a: Attachment, cap: nat): Option<nat> {
    if a.shrunk.Some? && a.shrunk.value <= cap then a.shrunk else None
  }

  /** What is sent for an attachment: the file, or its re-encoding, or nothing. */
  function Prepared(a: Attachment, cap: nat): (upload: Option<Upload>)
    ensures upload.Some? ==> upload.value.original == a && upload.value.size <= cap
  {
    if a.size.None? then None
    else if a.size.value <= cap then Some(Upload(a, a.size.value, false))
    else
      var shrunk := Shrink(a, cap);
      if shrunk.Some? then Some(Upload(a, shrunk.value, true)) else None
  }

  function TotalBytes(uploads: seq<Upload>): nat {
    if uploads == [] then 0 else TotalBytes(uploads[..|uploads| - 1]) + uploads[|uploads| - 1].size
  }

  function Originals(uploads: seq<Upload>): seq<Attachment> {
    seq(|uploads|, i requires 0 <= i < |uploads| => uploads[i].original)
  }

  /** The attachments the notes drop; a note on a downscaled file drops nothing. */
  function Dropped(notes: seq<Note>): seq<Attachment> {
    if notes == [] then []
    else
      var last := notes[|notes| - 1];
      Dropped(notes[..|notes| - 1]) + if last.Downscaled? then [] else [last.a]
  }

  ghost predicate PreparedAs(uploads: seq<Upload>, cap: nat) {
    forall u :: u in uploads ==> Prepared(u.original, cap) == Some(u)
  }

  /** Drops name exactly attachments that cannot be sent. */
  ghost predicate DropsRightly(notes: seq<Note>, cap: nat) {
    forall n :: n in notes ==>
      (n.Unavailable? ==> n.a.size.None?) && (n.TooLarge? ==> n.a.size.Some? && Prepared(n.a, cap).None?)
  }

  ghost predicate FitsRequest(uploads: seq<Upload>, request: nat) {
    |uploads| <= MAX_FILES_PER_MESSAGE && (|uploads| > 1 ==> TotalBytes(uploads) <= request)
  }

  /** Why a file was left for a later message. */
  ghost predicate DeferredRightly(uploads: seq<Upload>, deferred: seq<Attachment>, cap: nat, request: nat) {
    |uploads| == MAX_FILES_PER_MESSAGE ||
    forall a :: a in deferred ==>
      Prepared(a, cap).Some? && uploads != [] && TotalBytes(uploads) + Prepared(a, cap).value.size > request
  }

  lemma PutsOneMore(uploads: seq<Upload>, u: Upload)
    ensures TotalBytes(uploads + [u]) == TotalBytes(uploads) + u.size
    ensures multiset(Originals(uploads + [u])) == multiset(Originals(uploads)) + multiset{u.original}
  {
    assert (uploads + [u])[..|uploads|] == uploads;
    assert Originals(uploads + [u]) == Originals(uploads) + [u.original];
  }

  lemma NotesOneMore(notes: seq<Note>, n: Note)
    ensures multiset(Dropped(notes + [n])) ==
              multiset(Dropped(notes)) + if n.Downscaled? then multiset{} else multiset{n.a}
  {
    assert (notes + [n])[..|notes|] == notes;
  }

  /** The attachments that are sent smaller than they were, and those a note says so of. */
  function SentSmaller(uploads: seq<Upload>): seq<Attachment> {
    if uploads == [] then []
    else
      var last := uploads[|uploads| - 1];
      SentSmaller(uploads[..|uploads| - 1]) + if last.downscaled then [last.original] else []
  }

  function NotedSmaller(notes: seq<Note>): seq<Attachment> {
    if notes == [] then []
    else
      var last := notes[|notes| - 1];
      NotedSmaller(notes[..|notes| - 1]) + if last.Downscaled? then [last.a] else []
  }

  lemma OneMoreSmaller(uploads: seq<Upload>, u: Upload)
    ensures SentSmaller(uploads + [u]) == SentSmaller(uploads) + if u.downscaled then [u.original] else []
  {
    assert (uploads + [u])[..|uploads|] == uploads;
  }

  lemma OneMoreNoted(notes: seq<Note>, n: Note)
    ensures NotedSmaller(notes + [n]) == NotedSmaller(notes) + if n.Downscaled? then [n.a] else []
  {
    assert (notes + [n])[..|notes|] == notes;
  }

  /** `part` is what is left of `whole` when some of its elements are taken out. */
  ghost predicate InOrder<T>(part: seq<T>, whole: seq<T>) {
    part == []
    || (whole != []
        && var rest := whole[..|whole| - 1];
           InOrder(part, rest)
           || (part[|part| - 1] == whole[|whole| - 1] && InOrder(part[..|part| - 1], rest)))
  }

  lemma OrderGrows<T>(part: seq<T>, whole: seq<T>, x: T)
    requires InOrder(part, whole)
    ensures InOrder(part, whole + [x]) && InOrder(part + [x], whole + [x])
  {
    assert (whole + [x])[..|whole|] == whole && (part + [x])[..|part|] == part;
  }

  /** What can be sent: a file whose size can be read, that is under the cap or can be re-encoded to be. */
  lemma SendableExactly(a: Attachment, cap: nat)
    ensures var fits := a.size.Some? && a.size.value <= cap;
            var shrinks := a.size.Some? && a.size.value > cap && a.shrunk.Some? && a.shrunk.value <= cap;
            var upload := Prepared(a, cap);
            && (upload.Some? <==> fits || shrinks)
            && (fits ==> upload == Some(Upload(a, a.size.value, false)))
            && (shrinks ==> upload == Some(Upload(a, a.shrunk.value, true)))
  {
  }

  // ---- One message --------------------------------------------------------------------------

  datatype Packing = Packing(uploads: seq<Upload>, notes: seq<Note>, deferred: seq<Attachment>)

  /** Sent, dropped and left over are the attachments, each once. */
  ghost predicate Accounts(attachments: seq<Attachment>, p: Packing) {
    multiset(Originals(p.uploads)) + multiset(Dropped(p.notes)) + multiset(p.deferred) == multiset(attachments)
  }

  /** What happens to one attachment. */
  function PackOne(p: Packing, a: Attachment, cap: nat, request: nat): Packing {
    var upload := Prepared(a, cap);
    if |p.uploads| >= MAX_FILES_PER_MESSAGE then p.(deferred := p.deferred + [a])
    else if a.size.None? then p.(notes := p.notes + [Unavailable(a)])
    else if upload.None? then p.(notes := p.notes + [TooLarge(a)])
    else if p.uploads != [] && TotalBytes(p.uploads) + upload.value.size > request then p.(deferred := p.deferred + [a])
    else Packing(p.uploads + [upload.value],
                 if upload.value.downscaled then p.notes + [Downscaled(a)] else p.notes, p.deferred)
  }

  ghost function Pack(attachments: seq<Attachment>, cap: nat, request: nat): Packing {
    if attachments == [] then Packing([], [], [])
    else PackOne(Pack(attachments[..|attachments| - 1], cap, request), attachments[|attachments| - 1], cap, request)
  }

  lemma PackOneAccounts(attachments: seq<Attachment>, p: Packing, a: Attachment, cap: nat, request: nat)
    requires Accounts(attachments, p)
    ensures Accounts(attachments + [a], PackOne(p, a, cap, request))
  {
    hide Dropped, Originals, TotalBytes, Prepared;
    if |p.uploads| < MAX_FILES_PER_MESSAGE {
      var upload := Prepared(a, cap);
      if a.size.None? {
        NotesOneMore(p.notes, Unavailable(a));
      } else if upload.None? {
        NotesOneMore(p.notes, TooLarge(a));
      } else {
        NotesOneMore(p.notes, Downscaled(a));
        PutsOneMore(p.uploads, upload.value);
      }
    }
  }

  /** Everything that is kept true while a message fills. */
  ghost predicate Filling(p: Packing, cap: nat, request: nat) {
    && PreparedAs(p.uploads, cap) && DropsRightly(p.notes, cap) && FitsRequest(p.uploads, request)
    && DeferredRightly(p.uploads, p.deferred, cap, request)
    && (p.deferred != [] ==> p.uploads != [])
  }

  lemma PackOneFills(p: Packing, a: Attachment, cap: nat, request: nat)
    requires Filling(p, cap, request)
    ensures Filling(PackOne(p, a, cap, request), cap, request)
  {
    var upload := Prepared(a, cap);
    if upload.Some? {
      PutsOneMore(p.uploads, upload.value);
    }
    hide TotalBytes, Originals, Dropped;
  }

  lemma {:induction false} PackAccounts(attachments: seq<Attachment>, cap: nat, request: nat)
    ensures Accounts(attachments, Pack(attachments, cap, request))
    ensures Filling(Pack(attachments, cap, request), cap, request)
  {
    if attachments != [] {
      var rest, a := attachments[..|attachments| - 1], attachments[|attachments| - 1];
      PackAccounts(rest, cap, request);
      PackOneAccounts(rest, Pack(rest, cap, request), a, cap, request);
      PackOneFills(Pack(rest, cap, request), a, cap, request);
      assert attachments == rest + [a];
      hide Accounts, Filling, PackOne;
      assert Pack(attachments, cap, request) == PackOne(Pack(rest, cap, request), a, cap, request);
    }
  }

  lemma PackOneNotes(p: Packing, a: Attachment, cap: nat, request: nat)
    requires SentSmaller(p.uploads) == NotedSmaller(p.notes)
    ensures var q := PackOne(p, a, cap, request); SentSmaller(q.uploads) == NotedSmaller(q.notes)
  {
    hide SentSmaller, NotedSmaller, TotalBytes;
    OneMoreNoted(p.notes, Unavailable(a));
    OneMoreNoted(p.notes, TooLarge(a));
    OneMoreNoted(p.notes, Downscaled(a));
    if Prepared(a, cap).Some? {
      OneMoreSmaller(p.uploads, Prepared(a, cap).value);
    }
  }

  /** A message sends and defers files in the order they were attached, and notes exactly those it sends smaller. */
  lemma {:induction false} PackKeepsOrder(attachments: seq<Attachment>, cap: nat, request: nat)
    ensures var p := Pack(attachments, cap, request);
            && InOrder(Originals(p.uploads), attachments) && InOrder(p.deferred, attachments)
            && SentSmaller(p.uploads) == NotedSmaller(p.notes)
  {
    if attachments != [] {
      var rest, a := attachments[..|attachments| - 1], attachments[|attachments| - 1];
      var p := Pack(rest, cap, request);
      assert attachments == rest + [a] && Pack(attachments, cap, request) == PackOne(p, a, cap, request);
      hide InOrder, Pack, PackOne, SentSmaller, NotedSmaller, Originals;
      PackKeepsOrder(rest, cap, request);
      PackOneNotes(p, a, cap, request);
      PackOneKeepsOrder(rest, p, a, cap, request);
    }
  }

  lemma PackOneKeepsOrder(rest: seq<Attachment>, p: Packing, a: Attachment, cap: nat, request: nat)
    requires InOrder(Originals(p.uploads), rest) && InOrder(p.deferred, rest)
    ensures var q := PackOne(p, a, cap, request);
            InOrder(Originals(q.uploads), rest + [a]) && InOrder(q.deferred, rest + [a])
  {
    OriginalsGrow(p, a, cap, request);
    hide InOrder, PackOne, Originals;
    OrderGrows(Originals(p.uploads), rest, a);
    OrderGrows(p.deferred, rest, a);
  }

  lemma OriginalsGrow(p: Packing, a: Attachment, cap: nat, request: nat)
    ensures var q := PackOne(p, a, cap, request);
            && (Originals(q.uploads) == Originals(p.uploads) || Originals(q.uploads) == Originals(p.uploads) + [a])
            && (q.deferred == p.deferred || q.deferred == p.deferred + [a])
  {
    hide TotalBytes;
  }

  /** The first attachment never waits: it is sent first, or dropped. */
  lemma {:induction false} FirstGoesFirst(attachments: seq<Attachment>, cap: nat, request: nat)
    requires attachments != []
    ensures var p := Pack(attachments, cap, request);
            && |p.deferred| < |attachments| && (p.uploads != [] || p.notes != [])
            && (Prepared(attachments[0], cap).Some? ==>
                  p.uploads != [] && Prepared(attachments[0], cap) == Some(p.uploads[0]))
  {
    var rest := attachments[..|attachments| - 1];
    if rest != [] {
      FirstGoesFirst(rest, cap, request);
    } else {
      assert Pack(rest, cap, request) == Packing([], [], []);
    }
  }

  /** `_fit_one_message`. */
  method FitOneMessage(attachments: seq<Attachment>, cap: nat, request: nat)
    returns (uploads: seq<Upload>, notes: seq<Note>, deferred: seq<Attachment>)
    ensures Packing(uploads, notes, deferred) == Pack(attachments, cap, request)
  {
    uploads, notes, deferred := [], [], [];
    var total := 0;
    for k := 0 to |attachments|
      invariant total == TotalBytes(uploads)
      invariant Packing(uploads, notes, deferred) == Pack(attachments[..k], cap, request)
    {
      var original := attachments[k];
      assert attachments[..k + 1][..k] == attachments[..k];
      if |uploads| >= MAX_FILES_PER_MESSAGE {
        deferred := deferred + [original];
        continue;
      }
      if original.size.None? {
        notes := notes + [Unavailable(original)];
        continue;
      }
      var size := original.size.value;
      var shrunk: Option<nat> := None;
      if size > cap {
        shrunk := Shrink(original, cap);
        if shrunk.None? {
          notes := notes + [TooLarge(original)];
          continue;
        }
        size := shrunk.value;
      }
      var upload := Upload(original, size, shrunk.Some?);
      if uploads != [] && total + size > request {
        deferred := deferred + [original];
        continue;
      }
      if shrunk.Some? {
        notes := notes + [Downscaled(original)];
      }
      PutsOneMore(uploads, upload);
      total := total + size;
      uploads := uploads + [upload];
    }
    assert attachments[..|attachments|] == attachments;
  }

  // ---- All messages -------------------------------------------------------------------------

  function AllSent(batches: seq<Batch>): seq<Attachment> {
    if batches == [] then [] else AllSent(batches[..|batches| - 1]) + Originals(batches[|batches| - 1].uploads)
  }

  function AllDropped(batches: seq<Batch>): seq<Attachment> {
    if batches == [] then [] else AllDropped(batches[..|batches| - 1]) + Dropped(batches[|batches| - 1].notes)
  }

  /** Between two messages: the first is full, or the next one's first file would not have fitted. */
  ghost predicate NoRoomLeft(first: Batch, second: Batch, request: nat) {
    || |first.uploads| == MAX_FILES_PER_MESSAGE
    || (second.uploads != [] && TotalBytes(first.uploads) + second.uploads[0].size > request)
  }

  ghost predicate GoodBatch(b: Batch, cap: nat, request: nat) {
    && PreparedAs(b.uploads, cap) && DropsRightly(b.notes, cap) && FitsRequest(b.uploads, request)
    && SentSmaller(b.uploads) == NotedSmaller(b.notes)
  }

  ghost predicate Packed(batches: seq<Batch>, cap: nat, request: nat) {
    && (forall b :: b in batches ==> GoodBatch(b, cap, request))
    && (forall i | 0 <= i < |batches| - 1 :: NoRoomLeft(batches[i], batches[i + 1], request))
  }

  lemma OneMoreBatch(batches: seq<Batch>, b: Batch)
    ensures AllSent(batches + [b]) == AllSent(batches) + Originals(b.uploads)
    ensures AllDropped(batches + [b]) == AllDropped(batches) + Dropped(b.notes)
  {
    assert (batches + [b])[..|batches|] == batches;
  }

  /** A message holds at most ten files and, when one file always fits, stays under the request cap. */
  lemma BatchFits(b: Batch, cap: nat, request: nat)
    requires GoodBatch(b, cap, request) && cap <= request
    ensures |b.uploads| <= MAX_FILES_PER_MESSAGE && TotalBytes(b.uploads) <= request
  {
    if |b.uploads| == 1 {
      assert b.uploads[0] in b.uploads && b.uploads[..0] == [];
    }
  }

  ghost predicate Conserved(attachments: seq<Attachment>, batches: seq<Batch>, remaining: seq<Attachment>) {
    multiset(AllSent(batches)) + multiset(AllDropped(batches)) + multiset(remaining) == multiset(attachments)
  }

  ghost predicate Continues(batches: seq<Batch>, remaining: seq<Attachment>, cap: nat, request: nat) {
    && Packed(batches, cap, request)
    && (batches != [] ==> DeferredRightly(batches[|batches| - 1].uploads, remaining, cap, request))
  }

  lemma BatchConserves(attachments: seq<Attachment>, batches: seq<Batch>, remaining: seq<Attachment>, p: Packing)
    requires Conserved(attachments, batches, remaining) && Accounts(remaining, p)
    ensures Conserved(attachments, batches + [Batch(p.uploads, p.notes)], p.deferred)
  {
    OneMoreBatch(batches, Batch(p.uploads, p.notes));
  }

  lemma BatchContinues(batches: seq<Batch>, remaining: seq<Attachment>, p: Packing, cap: nat, request: nat)
    requires Continues(batches, remaining, cap, request) && remaining != [] && Filling(p, cap, request)
    requires SentSmaller(p.uploads) == NotedSmaller(p.notes)
    requires Prepared(remaining[0], cap).Some? ==> p.uploads != [] && Prepared(remaining[0], cap) == Some(p.uploads[0])
    ensures Continues(batches + [Batch(p.uploads, p.notes)], p.deferred, cap, request)
  {
    var b := Batch(p.uploads, p.notes);
    if batches != [] {
      FollowsOn(batches[|batches| - 1], remaining, b, cap, request);
    }
    hide DeferredRightly, FitsRequest, PreparedAs, DropsRightly, TotalBytes, SentSmaller, NotedSmaller;
  }

  /**
   `batch_uploads`. The branch for a message that sends nothing and leaves files over is not
   reachable, as the assertion in its place shows.
   */
  method BatchUploads(attachments: seq<Attachment>, cap: nat, request: nat) returns (batches: seq<Batch>)
    ensures multiset(AllSent(batches)) + multiset(AllDropped(batches)) == multiset(attachments)
    ensures Packed(batches, cap, request)
  {
    batches := [];
    var remaining := attachments;
    while remaining != []
      invariant Conserved(attachments, batches, remaining)
      invariant Continues(batches, remaining, cap, request)
      decreases |remaining|
    {
      var uploads, notes, deferred := FitOneMessage(remaining, cap, request);
      ghost var p := Packing(uploads, notes, deferred);
      PackAccounts(remaining, cap, request);
      PackKeepsOrder(remaining, cap, request);
      FirstGoesFirst(remaining, cap, request);
      BatchConserves(attachments, batches, remaining, p);
      BatchContinues(batches, remaining, p, cap, request);
      if uploads != [] || notes != [] {
        batches := batches + [Batch(uploads, notes)];
      }
      assert !(uploads == [] && deferred != []);
      remaining := deferred;
    }
  }

  lemma FollowsOn(first: Batch, remaining: seq<Attachment>, second: Batch, cap: nat, request: nat)
    requires remaining != [] && DeferredRightly(first.uploads, remaining, cap, request)
    requires Prepared(remaining[0], cap).Some? ==>
               second.uploads != [] && Prepared(remaining[0], cap) == Some(second.uploads[0])
    ensures NoRoomLeft(first, second, request)
  {
    assert remaining[0] in remaining;
  }

  /** Each attachment is delivered or dropped as often as it was attached, and never both. */
  lemma SentOrDropped(batches: seq<Batch>, a: Attachment, cap: nat, request: nat)
    requires Packed(batches, cap, request)
    ensures Prepared(a, cap).Some? ==> a !in AllDropped(batches)
    ensures Prepared(a, cap).None? ==> a !in AllSent(batches)
  {
    if batches != [] {
      var rest, last := batches[..|batches| - 1], batches[|batches| - 1];
      assert last in batches && forall b :: b in rest ==> b in batches;
      SentOrDropped(rest, a, cap, request);
      DroppedOnlyUnsendable(last.notes, a, cap);
      if a in Originals(last.uploads) {
        var i :| 0 <= i < |last.uploads| && last.uploads[i].original == a;
        assert last.uploads[i] in last.uploads;
      }
    }
  }

  lemma {:induction false} DroppedOnlyUnsendable(notes: seq<Note>, a: Attachment, cap: nat)
    requires DropsRightly(notes, cap)
    ensures Prepared(a, cap).Some? ==> a !in Dropped(notes)
  {
    if notes != [] {
      var rest, last := notes[..|notes| - 1], notes[|notes| - 1];
      assert last in notes && forall n :: n in rest ==> n in notes;
      DroppedOnlyUnsendable(rest, a, cap);
    }
  }
}
