/** The store of shared canvas documents with revision-checked patches. */
module Canvas {
  import opened Wrappers
  import opened Clock
  import opened Text

  type CanvasId = string

  const MAX_DOCUMENT_SIZE: nat := 1024 * 1024

  const MAX_BLOCKS_PER_DOCUMENT: nat := 200

  datatype BlockKind = Markdown | Code | Note | Checklist | Status | Metric | Action

  datatype Block = Block(kind: BlockKind, text: string, meta: Option<string>)

  datatype Document = Document(
    id: CanvasId, title: string, body: string, sessionKey: Option<string>,
    blocks: seq<Block>, revision: nat, updatedAt: Instant)

  datatype Patch = Patch(
    title: Option<string>, body: Option<string>, sessionKey: Option<Option<string>>,
    appendBlocks: seq<Block>, expectedRevision: Option<nat>)

  datatype CanvasError = RevisionConflict(expected: nat, current: nat) | TooManyBlocks(count: nat) | TooLarge(bytes: nat)

  type Documents = map<CanvasId, Document>

  function BlockBytes(blocks: seq<Block>): nat {
    if blocks == [] then 0 else ByteLen(blocks[0].text) + BlockBytes(blocks[1..])
  }

  function DocumentBytes(d: Document): nat {
    ByteLen(d.title) + ByteLen(d.body) + BlockBytes(d.blocks)
  }

  /** The revision a canvas is at; zero if it does not exist. */
  function Revision(documents: Documents, id: CanvasId): nat {
    if id in documents then documents[id].revision else 0
  }

  function SetResult(documents: Documents, document: Document): Result<Document, CanvasError> {
    if DocumentBytes(document) > MAX_DOCUMENT_SIZE then Err(TooLarge(DocumentBytes(document)))
    else Ok(document.(revision := Revision(documents, document.id) + 1))
  }

  function Existing(documents: Documents, id: CanvasId, now: Instant): Document {
    if id in documents then documents[id] else Document(id, "", "", None, [], 0, now)
  }

  function Edited(d: Document, patch: Patch): Document {
    d.(title := if patch.title.Some? then patch.title.value else d.title,
       body := if patch.body.Some? then patch.body.value else d.body,
       sessionKey := if patch.sessionKey.Some? then patch.sessionKey.value else d.sessionKey,
       blocks := d.blocks + patch.appendBlocks)
  }

  function PatchResult(documents: Documents, id: CanvasId, patch: Patch, now: Instant): Result<Document, CanvasError> {
    var current := Existing(documents, id, now);
    var edited := Edited(current, patch);
    if patch.expectedRevision.Some? && patch.expectedRevision.value != current.revision
    then Err(RevisionConflict(patch.expectedRevision.value, current.revision))
    else if |edited.blocks| > MAX_BLOCKS_PER_DOCUMENT then Err(TooManyBlocks(|edited.blocks|))
    else if DocumentBytes(edited) > MAX_DOCUMENT_SIZE then Err(TooLarge(DocumentBytes(edited)))
    else Ok(edited.(revision := current.revision + 1, updatedAt := now))
  }

  /** A rejected operation leaves the documents as they are. */
  function Stored(documents: Documents, r: Result<Document, CanvasError>): Documents {
    if r.Ok? then documents[r.value.id := r.value] else documents
  }

  class CanvasStore {
    var documents: Documents

    constructor ()
      ensures documents == map[]
    {
      documents := map[];
    }

    method ValidateDocumentSize(document: Document) returns (r: Result<(), CanvasError>)
      ensures r == if DocumentBytes(document) > MAX_DOCUMENT_SIZE then Err(TooLarge(DocumentBytes(document))) else Ok(())
    {
      var blockBytes := 0;
      for i := 0 to |document.blocks|
        invariant blockBytes + BlockBytes(document.blocks[i..]) == BlockBytes(document.blocks)
      {
        assert document.blocks[i..][1..] == document.blocks[i + 1..];
        blockBytes := blockBytes + ByteLen(document.blocks[i].text);
      }
      var total := ByteLen(document.title) + ByteLen(document.body) + blockBytes;
      if total > MAX_DOCUMENT_SIZE {
        return Err(TooLarge(total));
      }
      return Ok(());
    }

    method Set(document: Document) returns (r: Result<Document, CanvasError>)
      modifies this
      ensures r == SetResult(old(documents), document)
      ensures documents == Stored(old(documents), r)
    {
      var valid := ValidateDocumentSize(document);
      if valid.Err? {
        return Err(valid.error);
      }
      var nextRevision := if document.id in documents then documents[document.id].revision + 1 else 1;
      var next := document.(revision := nextRevision);
      documents := documents[next.id := next];
      return Ok(next);
    }

    method ApplyPatch(id: CanvasId, patch: Patch, now: Instant) returns (r: Result<Document, CanvasError>)
      modifies this
      ensures r == PatchResult(old(documents), id, patch, now)
      ensures documents == Stored(old(documents), r)
    {
      var existing := if id in documents then documents[id] else Document(id, "", "", None, [], 0, now);
      if patch.expectedRevision.Some? {
        if existing.revision != patch.expectedRevision.value {
          return Err(RevisionConflict(patch.expectedRevision.value, existing.revision));
        }
      }
      var document := existing;
      if patch.title.Some? {
        document := document.(title := patch.title.value);
      }
      if patch.body.Some? {
        document := document.(body := patch.body.value);
      }
      if patch.sessionKey.Some? {
        document := document.(sessionKey := patch.sessionKey.value);
      }
      document := document.(blocks := document.blocks + patch.appendBlocks);
      if |document.blocks| > MAX_BLOCKS_PER_DOCUMENT {
        return Err(TooManyBlocks(|document.blocks|));
      }
      var valid := ValidateDocumentSize(document);
      if valid.Err? {
        return Err(valid.error);
      }
      document := document.(revision := document.revision + 1);
      document := document.(updatedAt := now);
      documents := documents[document.id := document];
      return Ok(document);
    }

    method Clear(id: CanvasId)
      modifies this
      ensures documents == old(documents) - {id}
    {
      documents := documents - {id};
    }
  }

  // ----- whole runs

  datatype Op =
    | SetOp(document: Document)
    | PatchOp(id: CanvasId, patch: Patch, now: Instant)
    | ClearOp(id: CanvasId)

  function Answer(documents: Documents, op: Op): Result<Document, CanvasError>
    requires !op.ClearOp?
  {
    match op
    case SetOp(document) => SetResult(documents, document)
    case PatchOp(id, patch, now) => PatchResult(documents, id, patch, now)
  }

  function Step(documents: Documents, op: Op): Documents {
    if op.ClearOp? then documents - {op.id} else Stored(documents, Answer(documents, op))
  }

  function Final(documents: Documents, ops: seq<Op>): Documents
    decreases |ops|
  {
    if ops == [] then documents else Final(Step(documents, ops[0]), ops[1..])
  }

  /** Successful writes of one canvas since its last clear, counted over the run. */
  function Writes(documents: Documents, ops: seq<Op>, id: CanvasId, sofar: nat): nat
    decreases |ops|
  {
    if ops == [] then sofar
    else
      var op := ops[0];
      var next := if op.ClearOp? then (if op.id == id then 0 else sofar)
                  else if Answer(documents, op).Ok? && Answer(documents, op).value.id == id then sofar + 1
                  else sofar;
      Writes(Step(documents, op), ops[1..], id, next)
  }

  /** Documents lie under their own identifier, within the size limit, written at least once. */
  predicate Sound(documents: Documents) {
    forall id :: id in documents ==>
      documents[id].id == id && DocumentBytes(documents[id]) <= 1_048_576 && documents[id].revision >= 1
  }

  lemma StepIsSound(documents: Documents, op: Op)
    requires Sound(documents)
    ensures Sound(Step(documents, op))
    ensures op.PatchOp? && Answer(documents, op).Ok? ==> Answer(documents, op).value.id == op.id
  {
    hide ByteLen, BlockBytes;
    if op.SetOp? {
      SizeIgnoresRevision(op.document, Revision(documents, op.document.id) + 1, op.document.updatedAt);
    }
    if op.PatchOp? {
      var current := Existing(documents, op.id, op.now);
      SizeIgnoresRevision(Edited(current, op.patch), current.revision + 1, op.now);
    }
  }

  lemma SizeIgnoresRevision(d: Document, revision: nat, now: Instant)
    ensures DocumentBytes(d.(revision := revision, updatedAt := now)) == DocumentBytes(d)
  {
  }

  lemma {:induction false} RunIsSound(documents: Documents, ops: seq<Op>)
    requires Sound(documents)
    ensures Sound(Final(documents, ops))
    decreases |ops|
  {
    if ops == [] {
    } else {
      hide Sound, Step;
      StepIsSound(documents, ops[0]);
      RunIsSound(Step(documents, ops[0]), ops[1..]);
    }
  }

  lemma StepCounts(documents: Documents, op: Op, id: CanvasId)
    requires Sound(documents)
    ensures op.ClearOp? ==>
              Revision(Step(documents, op), id) == if op.id == id then 0 else Revision(documents, id)
    ensures !op.ClearOp? ==>
              Revision(Step(documents, op), id) ==
              Revision(documents, id) + if Answer(documents, op).Ok? && Answer(documents, op).value.id == id then 1 else 0
  {
    hide DocumentBytes;
    StepIsSound(documents, op);
  }

  /** The revision of a canvas is the number of successful writes since it was created or last cleared. */
  lemma {:induction false} RevisionCountsWrites(documents: Documents, ops: seq<Op>, id: CanvasId)
    requires Sound(documents)
    ensures Revision(Final(documents, ops), id) == Writes(documents, ops, id, Revision(documents, id))
    decreases |ops|
  {
    if ops == [] {
    } else {
      hide Sound, Step, Answer;
      StepIsSound(documents, ops[0]);
      StepCounts(documents, ops[0], id);
      RevisionCountsWrites(Step(documents, ops[0]), ops[1..], id);
    }
  }

  predicate NeverCleared(ops: seq<Op>, id: CanvasId) {
    forall i :: 0 <= i < |ops| ==> !(ops[i].ClearOp? && ops[i].id == id)
  }

  lemma {:induction false} RevisionNeverFalls(documents: Documents, ops: seq<Op>, id: CanvasId)
    requires Sound(documents) && NeverCleared(ops, id)
    ensures Revision(Final(documents, ops), id) >= Revision(documents, id)
    decreases |ops|
  {
    if ops == [] {
    } else {
      hide Sound, Step, Answer;
      StepIsSound(documents, ops[0]);
      StepCounts(documents, ops[0], id);
      RevisionNeverFalls(Step(documents, ops[0]), ops[1..], id);
    }
  }

  /** No lost update: of two patches that expect the same revision of a canvas that is not cleared in between,
      the second is rejected once the first was accepted, whatever happens in between. */
  lemma NoLostUpdate(documents: Documents, id: CanvasId, first: Patch, ops: seq<Op>, second: Patch, t: Instant, u: Instant)
    requires Sound(documents) && NeverCleared(ops, id)
    requires first.expectedRevision.Some? && second.expectedRevision == first.expectedRevision
    requires PatchResult(documents, id, first, t).Ok?
    ensures var later := Final(Step(documents, PatchOp(id, first, t)), ops);
            PatchResult(later, id, second, u)
              == Err(RevisionConflict(second.expectedRevision.value, Revision(later, id)))
  {
    hide DocumentBytes;
    var op := PatchOp(id, first, t);
    var after := Step(documents, op);
    StepIsSound(documents, op);
    StepCounts(documents, op, id);
    RevisionNeverFalls(after, ops, id);
  }

  /** The second of two such patches passes the revision check if and only if the writes since the canvas was last
      cleared are as many as it expects; so after an accepted first patch a clear must have come in between. */
  lemma SecondPatchExactly(documents: Documents, id: CanvasId, first: Patch, ops: seq<Op>, second: Patch, t: Instant, u: Instant)
    requires Sound(documents) && second.expectedRevision.Some?
    requires PatchResult(documents, id, first, t).Ok?
    ensures var after := Step(documents, PatchOp(id, first, t));
            var r := PatchResult(Final(after, ops), id, second, u);
            && (!(r.Err? && r.error.RevisionConflict?) <==>
                  Writes(after, ops, id, Revision(documents, id) + 1) == second.expectedRevision.value)
            && (!(r.Err? && r.error.RevisionConflict?) && second.expectedRevision == first.expectedRevision ==>
                  !NeverCleared(ops, id))
  {
    hide DocumentBytes, Writes, Final;
    var op := PatchOp(id, first, t);
    var after := Step(documents, op);
    StepIsSound(documents, op);
    StepCounts(documents, op, id);
    RevisionCountsWrites(after, ops, id);
    if NeverCleared(ops, id) { RevisionNeverFalls(after, ops, id); }
  }

  /** A clear and a matching number of writes in between do satisfy an old expectation. */
  lemma ClearForgetsRevisions(id: CanvasId)
    ensures var create := Patch(Some("mine"), None, None, [], Some(0));
            var other := Patch(Some("yours"), None, None, [], Some(0));
            var after := Final(Step(map[], PatchOp(id, create, 0)), [ClearOp(id)]);
            PatchResult(map[], id, create, 0).Ok? && PatchResult(after, id, other, 0).Ok?
  {
    var create := Patch(Some("mine"), None, None, [], Some(0));
    var documents := Step(map[], PatchOp(id, create, 0));
    assert ByteLen("mine") <= 16 && ByteLen("yours") <= 20;
    assert [ClearOp(id)][1..] == [];
    assert Final(documents, [ClearOp(id)]) == documents - {id};
    assert [] + create.appendBlocks == [];
  }

  // ----- what is accepted, and what a document keeps

  /** A write is accepted exactly within one mebibyte; a patch exactly if its expectation, if any, is the current revision
      and what it leads to has at most 200 blocks and one mebibyte. */
  lemma AcceptedExactly(documents: Documents, document: Document, id: CanvasId, patch: Patch, now: Instant)
    ensures Answer(documents, SetOp(document)).Ok? <==> DocumentBytes(document) <= 1_048_576
    ensures var was := if id in documents then documents[id] else Document(id, "", "", None, [], 0, now);
            var title := if patch.title.Some? then patch.title.value else was.title;
            var body := if patch.body.Some? then patch.body.value else was.body;
            Answer(documents, PatchOp(id, patch, now)).Ok? <==>
              (patch.expectedRevision.Some? ==> patch.expectedRevision.value == was.revision) &&
              |was.blocks| + |patch.appendBlocks| <= 200 &&
              ByteLen(title) + ByteLen(body) + BlockBytes(was.blocks + patch.appendBlocks) <= 1_048_576
  {
    hide ByteLen, BlockBytes;
  }

  /** An accepted write stores the given document as it is, under the next revision. */
  lemma WriteStores(documents: Documents, document: Document)
    requires Answer(documents, SetOp(document)).Ok?
    ensures Step(documents, SetOp(document)) ==
            documents[document.id := document.(revision := Revision(documents, document.id) + 1)]
  {
    hide DocumentBytes;
  }

  /** An accepted patch keeps everything it does not mention, and all earlier blocks in front of its own; a canvas that
      does not exist counts as blank. */
  lemma PatchKeeps(documents: Documents, id: CanvasId, patch: Patch, now: Instant)
    requires Sound(documents) && Answer(documents, PatchOp(id, patch, now)).Ok?
    ensures var was := if id in documents then documents[id] else Document(id, "", "", None, [], 0, now);
            var next := Step(documents, PatchOp(id, patch, now));
            && id in next && next == documents[id := next[id]]
            && next[id].id == id && next[id].revision == was.revision + 1 && next[id].updatedAt == now
            && (patch.title.None? ==> next[id].title == was.title)
            && (patch.title.Some? ==> next[id].title == patch.title.value)
            && (patch.body.None? ==> next[id].body == was.body)
            && (patch.body.Some? ==> next[id].body == patch.body.value)
            && (patch.sessionKey.None? ==> next[id].sessionKey == was.sessionKey)
            && (patch.sessionKey.Some? ==> next[id].sessionKey == patch.sessionKey.value)
            && next[id].blocks == was.blocks + patch.appendBlocks
  {
    hide DocumentBytes;
  }

  function AppendedBy(documents: Documents, op: Op, id: CanvasId): seq<Block> {
    if op.PatchOp? && op.id == id && Answer(documents, op).Ok? then op.patch.appendBlocks else []
  }

  /** The blocks that the accepted patches of a run append to one canvas. */
  function Appended(documents: Documents, ops: seq<Op>, id: CanvasId): seq<Block>
    decreases |ops|
  {
    if ops == [] then [] else AppendedBy(documents, ops[0], id) + Appended(Step(documents, ops[0]), ops[1..], id)
  }

  predicate Touches(op: Op, id: CanvasId) {
    (op.SetOp? && op.document.id == id) || (op.ClearOp? && op.id == id)
  }

  lemma StepAppends(documents: Documents, op: Op, id: CanvasId)
    requires Sound(documents) && id in documents && !Touches(op, id)
    ensures var next := Step(documents, op);
            id in next && next[id].blocks == documents[id].blocks + AppendedBy(documents, op, id)
  {
    hide DocumentBytes;
    assert documents[id].blocks + [] == documents[id].blocks;
    if op.PatchOp? && Answer(documents, op).Ok? { PatchKeeps(documents, op.id, op.patch, op.now); }
  }

  /** Over a run that neither clears nor rewrites a canvas its blocks are the earlier ones and those of every accepted
      patch, in order: none is lost. */
  lemma {:induction false} NoBlockIsLost(documents: Documents, ops: seq<Op>, id: CanvasId)
    requires Sound(documents) && id in documents && forall i :: 0 <= i < |ops| ==> !Touches(ops[i], id)
    ensures var last := Final(documents, ops);
            id in last && last[id].blocks == documents[id].blocks + Appended(documents, ops, id)
    decreases |ops|
  {
    hide Sound, Step, AppendedBy, Touches;
    if ops == [] {
      assert documents[id].blocks + [] == documents[id].blocks;
    } else {
      var op := ops[0];
      var next := Step(documents, op);
      StepIsSound(documents, op);
      StepAppends(documents, op, id);
      NoBlockIsLost(next, ops[1..], id);
      var a, b, c := documents[id].blocks, AppendedBy(documents, op, id), Appended(next, ops[1..], id);
      assert a + b + c == a + (b + c);
    }
  }

  // ----- the block limit

  predicate WithinBlockLimit(documents: Documents) {
    forall id :: id in documents ==> |documents[id].blocks| <= 200
  }

  /** After every step of the run all stored documents are within the block limit. */
  predicate AlwaysWithinBlockLimit(documents: Documents, ops: seq<Op>)
    decreases |ops|
  {
    WithinBlockLimit(documents) && (ops != [] ==> AlwaysWithinBlockLimit(Step(documents, ops[0]), ops[1..]))
  }

  /** Every document that is written as a whole, and accepted, is within the block limit. */
  predicate SetsWithinBlockLimit(documents: Documents, ops: seq<Op>)
    decreases |ops|
  {
    ops != [] ==>
      (ops[0].SetOp? && Answer(documents, ops[0]).Ok? ==> |ops[0].document.blocks| <= MAX_BLOCKS_PER_DOCUMENT) &&
      SetsWithinBlockLimit(Step(documents, ops[0]), ops[1..])
  }

  lemma StepBlockLimit(documents: Documents, op: Op)
    requires WithinBlockLimit(documents)
    ensures WithinBlockLimit(Step(documents, op)) <==>
              (op.SetOp? && Answer(documents, op).Ok? ==> |op.document.blocks| <= MAX_BLOCKS_PER_DOCUMENT)
  {
    hide DocumentBytes;
    if op.SetOp? && Answer(documents, op).Ok? {
      var id := op.document.id;
      assert Step(documents, op)[id].blocks == op.document.blocks;
    }
  }

  /** The block limit holds throughout a run if and only if the accepted whole-document writes respect it: patches
      enforce it, such writes do not look at it. */
  lemma {:induction false} BlockLimitExactly(documents: Documents, ops: seq<Op>)
    requires WithinBlockLimit(documents)
    ensures AlwaysWithinBlockLimit(documents, ops) <==> SetsWithinBlockLimit(documents, ops)
    decreases |ops|
  {
    if ops == [] {
    } else {
      hide Step, Answer, WithinBlockLimit;
      StepBlockLimit(documents, ops[0]);
      var next := Step(documents, ops[0]);
      if WithinBlockLimit(next) { BlockLimitExactly(next, ops[1..]); }
    }
  }

  function BlankBlocks(n: nat): (r: seq<Block>)
    ensures |r| == n && BlockBytes(r) == 0
  {
    if n == 0 then [] else [Block(Note, "", None)] + BlankBlocks(n - 1)
  }

  /** On every store, and for every canvas, a whole-document write can break it. */
  lemma SetCanBreakBlockLimit(documents: Documents, id: CanvasId, now: Instant)
    requires WithinBlockLimit(documents)
    ensures var big := Document(id, "", "", None, BlankBlocks(MAX_BLOCKS_PER_DOCUMENT + 1), 0, now);
            !AlwaysWithinBlockLimit(documents, [SetOp(big)])
  {
    hide BlockBytes;
    var big := Document(id, "", "", None, BlankBlocks(MAX_BLOCKS_PER_DOCUMENT + 1), 0, now);
    BlockLimitExactly(documents, [SetOp(big)]);
    assert Answer(documents, SetOp(big)).Ok?;
  }
}
