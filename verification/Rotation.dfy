/** The re-encrypt run: every stored credential moved to the primary key, one by one. */
module Rotation {
  import opened Text
  import opened Keyring

  /** A connection as listed when the run starts. */
  datatype Conn = Conn(id: int, enc: string)

  /** What chance decides for one connection: the nonce, and whether the store accepts the write. */
  datatype Fate = Fate(nonce: Option<string>, stored: bool)

  /** Stored ciphertexts, the three counters, and the connections whose cached pool was dropped. */
  datatype Progress = Progress(creds: map<int, string>, checked: nat, rewritten: nat, failed: nat, forgotten: seq<int>)

  function Visit(a: Aead, r: Ring, c: Conn, f: Fate, p: Progress): Progress
    requires WellFormed(r)
  {
    if c.enc == "" then p
    else
      var p' := p.(checked := p.checked + 1);
      match Reencrypt(a, r, f.nonce, c.enc)
      case Err(_) => p'.(failed := p.failed + 1)
      case Ok(s) =>
        if !s.changed then p'
        else if !f.stored then p'.(failed := p.failed + 1)
        else p'.(creds := p.creds[c.id := s.enc], rewritten := p.rewritten + 1, forgotten := p.forgotten + [c.id])
  }

  /** The state after the connections of `conns`, in order. */
  function RunOver(a: Aead, r: Ring, conns: seq<Conn>, fates: seq<Fate>, creds: map<int, string>): Progress
    requires WellFormed(r) && |fates| >= |conns|
  {
    if conns == [] then Progress(creds, 0, 0, 0, [])
    else
      var n := |conns| - 1;
      Visit(a, r, conns[n], fates[n], RunOver(a, r, conns[..n], fates, creds))
  }

  class Store {
    var creds: map<int, string>

    constructor (creds: map<int, string>)
      ensures this.creds == creds
    {
      this.creds := creds;
    }

    /** Writes one ciphertext, or fails and writes nothing. */
    method UpdatePasswordEnc(id: int, enc: string, stored: bool) returns (ok: bool)
      modifies this
      ensures ok == stored && creds == if stored then old(creds)[id := enc] else old(creds)
    {
      ok := stored;
      if stored { creds := creds[id := enc]; }
    }
  }

  /** The admin action: list the connections, re-encrypt each, count. */
  method ApiReencrypt(a: Aead, r: Ring, conns: seq<Conn>, fates: seq<Fate>, st: Store)
    returns (checked: nat, rewritten: nat, failed: nat, forgotten: seq<int>)
    requires WellFormed(r) && |fates| >= |conns|
    modifies st
    ensures Progress(st.creds, checked, rewritten, failed, forgotten) == RunOver(a, r, conns, fates, old(st.creds))
  {
    checked, rewritten, failed, forgotten := 0, 0, 0, [];
    for i := 0 to |conns|
      invariant Progress(st.creds, checked, rewritten, failed, forgotten) == RunOver(a, r, conns[..i], fates, old(st.creds))
    {
      assert conns[..i + 1][..i] == conns[..i];
      var c := conns[i];
      if c.enc == "" { continue; }
      checked := checked + 1;
      var out := Reencrypt(a, r, fates[i].nonce, c.enc);
      if out.Err? {
        failed := failed + 1;
        continue;
      }
      if !out.value.changed { continue; }
      var ok := st.UpdatePasswordEnc(c.id, out.value.enc, fates[i].stored);
      if !ok {
        failed := failed + 1;
        continue;
      }
      forgotten := forgotten + [c.id];
      rewritten := rewritten + 1;
    }
    assert conns[..|conns|] == conns;
  }

  // ---- every prefix of every run ----

  /** The list is a snapshot of the store: each connection once, with its stored ciphertext. */
  ghost predicate Snapshot(conns: seq<Conn>, creds: map<int, string>) {
    && (forall i | 0 <= i < |conns| :: conns[i].id in creds && creds[conns[i].id] == conns[i].enc)
    && (forall i, j | 0 <= i < j < |conns| :: conns[i].id != conns[j].id)
  }

  predicate Listed(conns: seq<Conn>, id: int) {
    exists i | 0 <= i < |conns| :: conns[i].id == id
  }

  function AlreadyPrimary(r: Ring, conns: seq<Conn>): nat {
    if conns == [] then 0
    else AlreadyPrimary(r, conns[..|conns| - 1]) + if conns[|conns| - 1].enc != "" && UnderPrimary(r, conns[|conns| - 1].enc) then 1 else 0
  }

  /** Whatever fails, and wherever the run stops, every credential still decrypts to its original
      result, and no credential that was not listed is touched. */
  lemma {:induction false} EveryPrefixIsSafe(a: Aead, r: Ring, conns: seq<Conn>, fates: seq<Fate>, creds: map<int, string>)
    requires Lawful(a) && WellFormed(r) && |fates| >= |conns| && Snapshot(conns, creds)
    ensures var p := RunOver(a, r, conns, fates, creds);
            && p.creds.Keys == creds.Keys
            && (forall id | id in creds :: Decrypt(a, r, p.creds[id]) == Decrypt(a, r, creds[id]))
            && (forall id | id in creds && !Listed(conns, id) :: p.creds[id] == creds[id])
            && (forall id | id in creds && creds[id] == "" :: p.creds[id] == "")
  {
    if conns != [] {
      var n := |conns| - 1;
      var init := conns[..n];
      EveryPrefixIsSafe(a, r, init, fates, creds);
      ReencryptSound(a, r, fates[n].nonce, conns[n].enc);
      forall id | Listed(init, id) ensures Listed(conns, id) {
        var i :| 0 <= i < |init| && init[i].id == id;
        assert conns[i].id == id;
      }
      assert conns[n].id in creds && Listed(conns, conns[n].id);
    }
  }

  /** Every listed credential is accounted for exactly once. */
  lemma {:induction false} CountersAddUp(a: Aead, r: Ring, conns: seq<Conn>, fates: seq<Fate>, creds: map<int, string>)
    requires Lawful(a) && WellFormed(r) && |fates| >= |conns|
    ensures var p := RunOver(a, r, conns, fates, creds);
            p.checked == p.rewritten + p.failed + AlreadyPrimary(r, conns) && |p.forgotten| == p.rewritten
  {
    if conns != [] {
      var n := |conns| - 1;
      CountersAddUp(a, r, conns[..n], fates, creds);
      ReencryptSound(a, r, fates[n].nonce, conns[n].enc);
    }
  }

  lemma {:induction false} PrefixKeepsRest(a: Aead, r: Ring, conns: seq<Conn>, fates: seq<Fate>, creds: map<int, string>, id: int)
    requires WellFormed(r) && |fates| >= |conns| && !Listed(conns, id) && id in creds
    ensures var p := RunOver(a, r, conns, fates, creds); id in p.creds && p.creds[id] == creds[id]
  {
    if conns != [] {
      var n := |conns| - 1;
      forall i | 0 <= i < n ensures conns[..n][i].id != id {
        assert conns[..n][i] == conns[i];
      }
      PrefixKeepsRest(a, r, conns[..n], fates, creds, id);
    }
  }

  /** Connections with a stored password. */
  function NonEmpty(conns: seq<Conn>): nat {
    if conns == [] then 0 else NonEmpty(conns[..|conns| - 1]) + if conns[|conns| - 1].enc == "" then 0 else 1
  }

  /** Those of them that are not under the primary id and cannot be moved: unreadable, or without a
      nonce, or refused by the store. */
  function Failing(a: Aead, r: Ring, conns: seq<Conn>, fates: seq<Fate>): nat
    requires WellFormed(r) && |fates| >= |conns|
  {
    if conns == [] then 0
    else
      var n := |conns| - 1;
      Failing(a, r, conns[..n], fates)
      + if conns[n].enc != "" && !UnderPrimary(r, conns[n].enc)
           && (Decrypt(a, r, conns[n].enc).Err? || fates[n].nonce.None? || !fates[n].stored) then 1 else 0
  }

  /** What the counters count. */
  lemma {:induction false} CountersAre(a: Aead, r: Ring, conns: seq<Conn>, fates: seq<Fate>, creds: map<int, string>)
    requires Lawful(a) && WellFormed(r) && |fates| >= |conns|
    ensures var p := RunOver(a, r, conns, fates, creds); p.checked == NonEmpty(conns) && p.failed == Failing(a, r, conns, fates)
  {
    if conns != [] {
      var n := |conns| - 1;
      CountersAre(a, r, conns[..n], fates, creds);
      ReencryptSound(a, r, fates[n].nonce, conns[n].enc);
    }
  }

  /** The connections whose pool is dropped are those whose stored password was changed, each once. */
  lemma {:induction false} ForgottenExactly(a: Aead, r: Ring, conns: seq<Conn>, fates: seq<Fate>, creds: map<int, string>)
    requires Lawful(a) && WellFormed(r) && |fates| >= |conns| && Snapshot(conns, creds)
    ensures var p := RunOver(a, r, conns, fates, creds);
            && p.creds.Keys == creds.Keys
            && (forall id :: id in p.forgotten <==> id in creds && p.creds[id] != creds[id])
            && NoDup(p.forgotten)
  {
    EveryPrefixIsSafe(a, r, conns, fates, creds);
    if conns != [] {
      var n := |conns| - 1;
      var before := RunOver(a, r, conns[..n], fates, creds);
      ForgottenExactly(a, r, conns[..n], fates, creds);
      NotListedBefore(conns);
      PrefixKeepsRest(a, r, conns[..n], fates, creds, conns[n].id);
      ReencryptSound(a, r, fates[n].nonce, conns[n].enc);
      assert conns[n].id !in before.forgotten;
    }
  }

  lemma {:induction false} NotListedBefore(conns: seq<Conn>)
    requires conns != [] && forall i, j | 0 <= i < j < |conns| :: conns[i].id != conns[j].id
    ensures !Listed(conns[..|conns| - 1], conns[|conns| - 1].id)
  {
  }

  /** A run without failures leaves every non-empty listed credential under the primary id. */
  lemma {:induction false} CleanRunMovesAll(a: Aead, r: Ring, conns: seq<Conn>, fates: seq<Fate>, creds: map<int, string>)
    requires Lawful(a) && WellFormed(r) && |fates| >= |conns| && Snapshot(conns, creds)
    requires RunOver(a, r, conns, fates, creds).failed == 0
    ensures var p := RunOver(a, r, conns, fates, creds);
            forall i | 0 <= i < |conns| && conns[i].enc != "" :: conns[i].id in p.creds && UnderPrimary(r, p.creds[conns[i].id])
  {
    if conns != [] {
      var n := |conns| - 1;
      var init := conns[..n];
      var before := RunOver(a, r, init, fates, creds);
      CleanRunMovesAll(a, r, init, fates, creds);
      ReencryptSound(a, r, fates[n].nonce, conns[n].enc);
      NotListedBefore(conns);
      PrefixKeepsRest(a, r, init, fates, creds, conns[n].id);
      var p := RunOver(a, r, conns, fates, creds);
      forall i | 0 <= i < |conns| && conns[i].enc != "" ensures conns[i].id in p.creds && UnderPrimary(r, p.creds[conns[i].id]) {
        if i < n { assert init[i] == conns[i] && conns[i].id != conns[n].id; }
      }
    }
  }

  /** After a run without failures the old keys can be dropped: a ring holding only the primary
      key decrypts each credential to what the full ring gave before the run. */
  lemma {:induction false} OldKeysCanGo(a: Aead, r: Ring, conns: seq<Conn>, fates: seq<Fate>, creds: map<int, string>, i: nat)
    requires Lawful(a) && WellFormed(r) && |fates| >= |conns| && Snapshot(conns, creds)
    requires RunOver(a, r, conns, fates, creds).failed == 0
    requires i < |conns| && conns[i].enc != ""
    ensures WellFormed(PrimaryOnly(r)) && conns[i].id in RunOver(a, r, conns, fates, creds).creds
    ensures Decrypt(a, PrimaryOnly(r), RunOver(a, r, conns, fates, creds).creds[conns[i].id]) == Decrypt(a, r, conns[i].enc)
  {
    CleanRunMovesAll(a, r, conns, fates, creds);
    EveryPrefixIsSafe(a, r, conns, fates, creds);
    PrimaryIsEnough(a, r, RunOver(a, r, conns, fates, creds).creds[conns[i].id]);
  }

  /** The list the next run sees. */
  ghost predicate Relisted(conns: seq<Conn>, creds: map<int, string>, again: seq<Conn>) {
    |again| == |conns| && forall i | 0 <= i < |conns| ::
      again[i].id == conns[i].id && conns[i].id in creds && again[i].enc == creds[conns[i].id]
  }

  lemma {:induction false} NothingToRewrite(a: Aead, r: Ring, conns: seq<Conn>, fates: seq<Fate>, creds: map<int, string>)
    requires WellFormed(r) && |fates| >= |conns|
    requires forall i | 0 <= i < |conns| :: conns[i].enc == "" || UnderPrimary(r, conns[i].enc)
    ensures var p := RunOver(a, r, conns, fates, creds);
            p.creds == creds && p.rewritten == 0 && p.failed == 0 && p.forgotten == []
  {
    if conns != [] {
      var n := |conns| - 1;
      forall i | 0 <= i < n ensures conns[..n][i] == conns[i] {
      }
      NothingToRewrite(a, r, conns[..n], fates, creds);
    }
  }

  /** After a clean run, a second run changes nothing, whatever its nonces and store do. */
  lemma {:induction false} SecondRunIsIdle(a: Aead, r: Ring, conns: seq<Conn>, fates: seq<Fate>, creds: map<int, string>, again: seq<Conn>, fates': seq<Fate>)
    requires Lawful(a) && WellFormed(r) && |fates| >= |conns| && Snapshot(conns, creds)
    requires RunOver(a, r, conns, fates, creds).failed == 0
    requires Relisted(conns, RunOver(a, r, conns, fates, creds).creds, again) && |fates'| >= |again|
    ensures var first := RunOver(a, r, conns, fates, creds);
            var second := RunOver(a, r, again, fates', first.creds);
            second.creds == first.creds && second.rewritten == 0 && second.failed == 0 && second.forgotten == []
  {
    var first := RunOver(a, r, conns, fates, creds);
    CleanRunMovesAll(a, r, conns, fates, creds);
    EveryPrefixIsSafe(a, r, conns, fates, creds);
    NothingToRewrite(a, r, again, fates', first.creds);
  }

  // ---- a password changed while the run is under way ----

  /** The visits of `conns`, in order, from `p` on. */
  function Continue(a: Aead, r: Ring, conns: seq<Conn>, fates: seq<Fate>, p: Progress): Progress
    requires WellFormed(r) && |fates| >= |conns|
  {
    if conns == [] then p
    else
      var n := |conns| - 1;
      Visit(a, r, conns[n], fates[n], Continue(a, r, conns[..n], fates, p))
  }

  /** After the listing and before the write of connection number `at`, `id` is given `enc`. */
  datatype Change = Change(at: nat, id: int, enc: string)

  function RunWithChange(a: Aead, r: Ring, conns: seq<Conn>, fates: seq<Fate>, creds: map<int, string>, ch: Change): Progress
    requires WellFormed(r) && |fates| >= |conns| && ch.at <= |conns|
  {
    var p := RunOver(a, r, conns[..ch.at], fates, creds);
    Continue(a, r, conns[ch.at..], fates[ch.at..], p.(creds := p.creds[ch.id := ch.enc]))
  }

  /** The visit writes, and what it writes comes from the listing. */
  predicate Rewrites(a: Aead, r: Ring, c: Conn, f: Fate)
    requires WellFormed(r)
  {
    c.enc != "" && f.stored && Reencrypt(a, r, f.nonce, c.enc).Ok? && Reencrypt(a, r, f.nonce, c.enc).value.changed
  }

  lemma {:induction false} VisitWrites(a: Aead, r: Ring, c: Conn, f: Fate, p: Progress, id: int)
    requires WellFormed(r) && id in p.creds
    ensures var q := Visit(a, r, c, f, p);
            && id in q.creds
            && q.creds[id] == if c.id == id && Rewrites(a, r, c, f) then Reencrypt(a, r, f.nonce, c.enc).value.enc else p.creds[id]
  {
  }

  lemma {:induction false} ContinueKeeps(a: Aead, r: Ring, conns: seq<Conn>, fates: seq<Fate>, p: Progress, id: int)
    requires WellFormed(r) && |fates| >= |conns| && id in p.creds
    requires forall i | 0 <= i < |conns| :: conns[i].id != id
    ensures var q := Continue(a, r, conns, fates, p); id in q.creds && q.creds[id] == p.creds[id]
  {
    if conns != [] {
      var n := |conns| - 1;
      ContinueKeeps(a, r, conns[..n], fates, p, id);
      VisitWrites(a, r, conns[n], fates[n], Continue(a, r, conns[..n], fates, p), id);
    }
  }

  lemma {:induction false} ContinueWrites(a: Aead, r: Ring, conns: seq<Conn>, fates: seq<Fate>, p: Progress, k: nat)
    requires WellFormed(r) && |fates| >= |conns| && k < |conns| && conns[k].id in p.creds
    requires forall i, j | 0 <= i < j < |conns| :: conns[i].id != conns[j].id
    ensures var q, id := Continue(a, r, conns, fates, p), conns[k].id;
            && id in q.creds
            && q.creds[id] == if Rewrites(a, r, conns[k], fates[k]) then Reencrypt(a, r, fates[k].nonce, conns[k].enc).value.enc else p.creds[id]
  {
    var n, id := |conns| - 1, conns[k].id;
    if k < n {
      ContinueWrites(a, r, conns[..n], fates, p, k);
    } else {
      ContinueKeeps(a, r, conns[..n], fates, p, id);
    }
    VisitWrites(a, r, conns[n], fates[n], Continue(a, r, conns[..n], fates, p), id);
  }

  /** A password changed during the run is lost if and only if its connection was still to be visited
      and that visit rewrites; what is stored then is the old password. */
  lemma {:induction false} ChangeIsLostExactly(a: Aead, r: Ring, conns: seq<Conn>, fates: seq<Fate>, creds: map<int, string>, ch: Change, i: nat)
    requires Lawful(a) && WellFormed(r) && |fates| >= |conns| && Snapshot(conns, creds) && ch.at <= |conns|
    requires i < |conns| && conns[i].id == ch.id
    ensures var after := RunWithChange(a, r, conns, fates, creds, ch).creds;
            && ch.id in after
            && (ch.at <= i && Rewrites(a, r, conns[i], fates[i]) ==>
                  after[ch.id] == Reencrypt(a, r, fates[i].nonce, conns[i].enc).value.enc
                  && Decrypt(a, r, after[ch.id]) == Decrypt(a, r, conns[i].enc))
            && (!(ch.at <= i && Rewrites(a, r, conns[i], fates[i])) ==> after[ch.id] == ch.enc)
  {
    var p := RunOver(a, r, conns[..ch.at], fates, creds);
    var p' := p.(creds := p.creds[ch.id := ch.enc]);
    var rest := conns[ch.at..];
    if ch.at <= i {
      assert rest[i - ch.at] == conns[i];
      ContinueWrites(a, r, rest, fates[ch.at..], p', i - ch.at);
      ReencryptSound(a, r, fates[i].nonce, conns[i].enc);
    } else {
      forall k | 0 <= k < |rest| ensures rest[k].id != ch.id { assert rest[k] == conns[k + ch.at]; }
      ContinueKeeps(a, r, rest, fates[ch.at..], p', ch.id);
    }
  }

  /** A connection that was not listed keeps the change. */
  lemma {:induction false} UnlistedChangeStays(a: Aead, r: Ring, conns: seq<Conn>, fates: seq<Fate>, creds: map<int, string>, ch: Change)
    requires WellFormed(r) && |fates| >= |conns| && ch.at <= |conns| && !Listed(conns, ch.id)
    ensures var after := RunWithChange(a, r, conns, fates, creds, ch).creds; ch.id in after && after[ch.id] == ch.enc
  {
    var p := RunOver(a, r, conns[..ch.at], fates, creds);
    var rest := conns[ch.at..];
    forall k | 0 <= k < |rest| ensures rest[k].id != ch.id { assert rest[k] == conns[k + ch.at]; }
    ContinueKeeps(a, r, rest, fates[ch.at..], p.(creds := p.creds[ch.id := ch.enc]), ch.id);
  }
}
