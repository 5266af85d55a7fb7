/** The data grid's manual transaction: a queue of edits, deletes and inserts over one page. */
module GridQueue {
  import opened Text

  /** Column index to typed text. */
  type Draft = map<nat, string>

  /** `deletes` keeps insertion order and holds no row twice. */
  datatype Queue = Queue(edits: map<nat, Draft>, deletes: seq<nat>, inserts: seq<Draft>)

  const EMPTY_QUEUE := Queue(map[], [], [])

  datatype Op = CommitEdit(r: nat, c: nat, value: string) | DeleteRows(idx: seq<nat>) | SubmitDraft(draft: Draft)

  function Original(rows: seq<seq<string>>, r: nat, c: nat): string {
    if r < |rows| && c < |rows[r]| then rows[r][c] else ""
  }

  /** An edit that restores the original text leaves the queue; a row without edits does too. */
  function QueueEdit(q: Queue, rows: seq<seq<string>>, r: nat, c: nat, value: string): Queue {
    var before := if r in q.edits then q.edits[r] else map[];
    var row := if value == Original(rows, r, c) then before - {c} else before[c := value];
    q.(edits := if row == map[] then q.edits - {r} else q.edits[r := row])
  }

  function AddNew(s: seq<nat>, idx: seq<nat>): seq<nat>
    decreases idx
  {
    if idx == [] then s else AddNew(if idx[0] in s then s else s + [idx[0]], idx[1..])
  }

  function QueueDeletes(q: Queue, idx: seq<nat>): Queue {
    q.(deletes := AddNew(q.deletes, idx), edits := q.edits - set r | r in idx)
  }

  function Step(q: Queue, rows: seq<seq<string>>, op: Op): Queue {
    match op
    case CommitEdit(r, c, value) => QueueEdit(q, rows, r, c, value)
    case DeleteRows(idx) => QueueDeletes(q, idx)
    case SubmitDraft(draft) => q.(inserts := q.inserts + [draft])
  }

  /** The queue after a session that starts empty. */
  function After(rows: seq<seq<string>>, ops: seq<Op>): Queue {
    if ops == [] then EMPTY_QUEUE else Step(After(rows, ops[..|ops| - 1]), rows, ops[|ops| - 1])
  }

  // ---- the component's state ----

  class Grid {
    const rows: seq<seq<string>>
    var edits: map<nat, Draft>
    var deletes: seq<nat>
    var inserts: seq<Draft>

    ghost function Contents(): Queue
      reads this
    {
      Queue(edits, deletes, inserts)
    }

    constructor (rows: seq<seq<string>>)
      ensures this.rows == rows && Contents() == EMPTY_QUEUE
    {
      this.rows := rows;
      edits, deletes, inserts := map[], [], [];
    }

    method CommitEdit(r: nat, c: nat, value: string)
      modifies this`edits
      ensures Contents() == QueueEdit(old(Contents()), rows, r, c, value)
    {
      var row := if r in edits then edits[r] else map[];
      if value == Original(rows, r, c) { row := row - {c}; } else { row := row[c := value]; }
      if row == map[] { edits := edits - {r}; } else { edits := edits[r := row]; }
    }

    method DeleteRows(idx: seq<nat>)
      modifies this`edits, this`deletes
      ensures Contents() == QueueDeletes(old(Contents()), idx)
      ensures NoDup(old(deletes) + idx) ==> deletes == old(deletes) + idx
      ensures inserts == old(inserts) && edits == map r | r in old(edits) && r !in idx :: old(edits)[r]
    {
      for i := 0 to |idx|
        invariant AddNew(deletes, idx[i..]) == AddNew(old(deletes), idx)
        invariant edits == old(edits) - set j | 0 <= j < i :: idx[j]
      {
        assert idx[i..][1..] == idx[i + 1..];
        if idx[i] !in deletes { deletes := deletes + [idx[i]]; }
        edits := edits - {idx[i]};
      }
      assert (set j | 0 <= j < |idx| :: idx[j]) == set r | r in idx;
      AddNewInOrder(old(deletes), idx);
    }

    method SubmitDraft(draft: Draft)
      modifies this`inserts
      ensures Contents() == old(Contents()).(inserts := old(inserts) + [draft])
    {
      inserts := inserts + [draft];
    }

    /** Commit and rollback both end with an empty queue. */
    method ClearPending()
      modifies this
      ensures Contents() == EMPTY_QUEUE
    {
      edits, deletes, inserts := map[], [], [];
    }
  }

  // ---- what a session leaves queued ----

  /** The text last committed for a cell. */
  function LastCommitted(ops: seq<Op>, r: nat, c: nat): Option<string> {
    if ops == [] then None
    else
      var op := ops[|ops| - 1];
      if op.CommitEdit? && op.r == r && op.c == c then Some(op.value) else LastCommitted(ops[..|ops| - 1], r, c)
  }

  predicate EverDeleted(ops: seq<Op>, r: nat) {
    exists op | op in ops :: op.DeleteRows? && r in op.idx
  }

  function Drafts(ops: seq<Op>): seq<Draft> {
    if ops == [] then []
    else Drafts(ops[..|ops| - 1]) + if ops[|ops| - 1].SubmitDraft? then [ops[|ops| - 1].draft] else []
  }

  /** A queued edit survives when its row is not deleted. */
  predicate Effective(q: Queue, r: nat, c: nat, value: string) {
    r !in q.deletes && r in q.edits && c in q.edits[r] && q.edits[r][c] == value
  }

  lemma {:induction false} AddNewContent(s: seq<nat>, idx: seq<nat>)
    requires NoDup(s)
    ensures NoDup(AddNew(s, idx))
    ensures forall r :: r in AddNew(s, idx) <==> r in s || r in idx
    decreases idx
  {
    if idx != [] {
      AddNewContent(if idx[0] in s then s else s + [idx[0]], idx[1..]);
      assert forall r :: r in idx <==> r == idx[0] || r in idx[1..];
    }
  }

  /** Rows queued before keep their places; rows that are new, and named once, follow in the order named. */
  lemma {:induction false} AddNewInOrder(s: seq<nat>, idx: seq<nat>)
    ensures |s| <= |AddNew(s, idx)| && AddNew(s, idx)[..|s|] == s
    ensures NoDup(s + idx) ==> AddNew(s, idx) == s + idx
    decreases idx
  {
    if idx == [] {
      assert s + idx == s;
    } else {
      var t := if idx[0] in s then s else s + [idx[0]];
      AddNewInOrder(t, idx[1..]);
      if NoDup(s + idx) { NewFirst(s, idx); }
    }
  }

  lemma {:induction false} NewFirst(s: seq<nat>, idx: seq<nat>)
    requires NoDup(s + idx) && idx != []
    ensures idx[0] !in s && s + [idx[0]] + idx[1..] == s + idx
  {
    assert (s + idx)[|s|] == idx[0];
    forall i | 0 <= i < |s| ensures s[i] != idx[0] { assert (s + idx)[i] == s[i]; }
  }

  lemma {:induction false} EverDeletedLast(ops: seq<Op>, r: nat)
    requires ops != []
    ensures EverDeleted(ops, r) <==>
            EverDeleted(ops[..|ops| - 1], r) || (ops[|ops| - 1].DeleteRows? && r in ops[|ops| - 1].idx)
  {
    var init, op := ops[..|ops| - 1], ops[|ops| - 1];
    assert ops == init + [op];
    assert op in ops && forall o | o in init :: o in ops;
    assert forall o | o in ops :: o == op || o in init;
  }

  /** After any session: rows are queued for deletion exactly when they were ever deleted, no row
      is queued without an edit, drafts are queued in order. */
  lemma {:induction false} QueueAfter(rows: seq<seq<string>>, ops: seq<Op>)
    ensures var q := After(rows, ops);
            && NoDup(q.deletes)
            && (forall r: nat :: r in q.deletes <==> EverDeleted(ops, r))
            && (forall r: nat | r in q.edits :: q.edits[r] != map[])
            && q.inserts == Drafts(ops)
  {
    if ops != [] {
      var init, op := ops[..|ops| - 1], ops[|ops| - 1];
      QueueAfter(rows, init);
      var q := After(rows, init);
      forall r: nat ensures EverDeleted(ops, r) <==> EverDeleted(init, r) || (op.DeleteRows? && r in op.idx) {
        EverDeletedLast(ops, r);
      }
      if op.DeleteRows? { AddNewContent(q.deletes, op.idx); }
    }
  }

  lemma {:induction false} EditEffect(q: Queue, rows: seq<seq<string>>, r': nat, c': nat, v: string, r: nat, c: nat, value: string)
    ensures Effective(QueueEdit(q, rows, r', c', v), r, c, value) <==>
            if r == r' && c == c' then r !in q.deletes && value == v && v != Original(rows, r, c)
            else Effective(q, r, c, value)
  {
    var before := if r' in q.edits then q.edits[r'] else map[];
    var row := if v == Original(rows, r', c') then before - {c'} else before[c' := v];
    assert c in row ==> row != map[];
    assert c != c' ==> (c in row <==> c in before);
  }

  /** After any session, the effective edits are exactly the cells, on rows never deleted, whose
      last committed text differs from the original. */
  lemma {:induction false} EffectiveEdits(rows: seq<seq<string>>, ops: seq<Op>, r: nat, c: nat, value: string)
    ensures Effective(After(rows, ops), r, c, value) <==>
            && !EverDeleted(ops, r) && LastCommitted(ops, r, c) == Some(value)
            && value != if r < |rows| && c < |rows[r]| then rows[r][c] else ""
  {
    QueueAfter(rows, ops);
    if ops != [] {
      var init, op := ops[..|ops| - 1], ops[|ops| - 1];
      EffectiveEdits(rows, init, r, c, value);
      EverDeletedLast(ops, r);
      var q := After(rows, init);
      match op
      case CommitEdit(r', c', v) =>
        EditEffect(q, rows, r', c', v, r, c, value);
      case DeleteRows(idx) =>
        QueueAfter(rows, init);
        AddNewContent(q.deletes, idx);
      case SubmitDraft(_) =>
    }
  }
}
