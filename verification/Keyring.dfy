/** The credential keyring: versioned keys, one primary, and re-encryption under it. */
module Keyring {
  import opened Text

  newtype byte = x: int | 0 <= x < 256
  type Bytes = seq<byte>

  datatype Result<+T> = Ok(value: T) | Err(error: Error)

  datatype Error =
    | NoKeys | BadId(id: string) | BadLength(id: string) | DuplicateId(id: string) | NoPrimary(id: string)
    | UnknownKey(id: string) | OpenFailed | NoLegacyKey | SealFailed

  /** Authenticated encryption of a text under a key and a nonce, printed as text. */
  datatype Aead = Aead(seal: (Bytes, string, string) -> string, open: (Bytes, string) -> Option<string>)

  /** What the cipher promises: the right key opens, a wrong key fails, and the printed payload
      (the base64 alphabet of section 4 of RFC 4648) never holds a '$'. */
  ghost predicate Lawful(a: Aead) {
    && (forall k, n, p :: a.open(k, a.seal(k, n, p)) == Some(p))
    && (forall k, k', n, p | k != k' :: a.open(k', a.seal(k, n, p)) == None)
    && (forall k, n, p :: '$' !in a.seal(k, n, p))
  }

  datatype KeySpec = KeySpec(id: string, material: Bytes)

  /** `order` is the try order for unprefixed ciphertext: the primary first. */
  datatype Ring = Ring(primary: string, keys: map<string, Bytes>, order: seq<string>)

  ghost predicate WellFormed(r: Ring) {
    && r.primary in r.keys
    && (forall id | id in r.keys :: id != "" && '$' !in id)
    && (forall i | 0 <= i < |r.order| :: r.order[i] in r.keys)
    && (forall id | id in r.keys :: id in r.order)
    && r.order != [] && r.order[0] == r.primary
  }

  // ---- building a ring ----

  /** The first thing wrong with a key list, in the order in which it is checked. */
  function FirstFault(specs: seq<KeySpec>, seen: set<string>): Option<Error> {
    if specs == [] then None
    else
      var s := specs[0];
      if s.id == "" || '$' in s.id then Some(BadId(s.id))
      else if |s.material| != 32 then Some(BadLength(s.id))
      else if s.id in seen then Some(DuplicateId(s.id))
      else FirstFault(specs[1..], seen + {s.id})
  }

  function Others(specs: seq<KeySpec>, primary: string): seq<string> {
    if specs == [] then [] else (if specs[0].id != primary then [specs[0].id] else []) + Others(specs[1..], primary)
  }

  predicate Names(specs: seq<KeySpec>, id: string) {
    exists s | s in specs :: s.id == id
  }

  ghost predicate HoldsExactly(keys: map<string, Bytes>, specs: seq<KeySpec>) {
    && (forall id :: id in keys <==> Names(specs, id))
    && (forall i | 0 <= i < |specs| :: specs[i].id in keys && keys[specs[i].id] == specs[i].material)
  }

  lemma {:induction false} NamesConcat(a: seq<KeySpec>, s: KeySpec, id: string)
    ensures Names(a + [s], id) <==> Names(a, id) || s.id == id
  {
    assert s in a + [s] && forall x | x in a :: x in a + [s];
  }

  lemma {:induction false} NamesSnoc(specs: seq<KeySpec>, i: nat)
    requires i < |specs|
    ensures forall id :: Names(specs[..i + 1], id) <==> Names(specs[..i], id) || specs[i].id == id
  {
    forall id ensures Names(specs[..i + 1], id) <==> Names(specs[..i], id) || specs[i].id == id {
      assert specs[..i + 1] == specs[..i] + [specs[i]];
      NamesConcat(specs[..i], specs[i], id);
    }
  }

  lemma {:induction false} HoldsSnoc(keys: map<string, Bytes>, specs: seq<KeySpec>, i: nat)
    requires i < |specs| && HoldsExactly(keys, specs[..i]) && specs[i].id !in keys
    ensures HoldsExactly(keys[specs[i].id := specs[i].material], specs[..i + 1])
    ensures keys[specs[i].id := specs[i].material].Keys == keys.Keys + {specs[i].id}
  {
    NamesSnoc(specs, i);
    var keys' := keys[specs[i].id := specs[i].material];
    var more := specs[..i + 1];
    forall j | 0 <= j < |more| ensures more[j].id in keys' && keys'[more[j].id] == more[j].material {
      if j < i { assert more[j] == specs[..i][j]; }
    }
  }

  lemma {:induction false} OthersContent(specs: seq<KeySpec>, primary: string, id: string)
    ensures id in Others(specs, primary) <==> id != primary && Names(specs, id)
  {
    if specs != [] {
      OthersContent(specs[1..], primary, id);
      assert forall s | s in specs :: s == specs[0] || s in specs[1..];
      assert specs[0] in specs && forall s | s in specs[1..] :: s in specs;
    }
  }

  /** An entry the ring can take: an id without '$', 32 bytes of key, and an id not used before. */
  predicate Usable(specs: seq<KeySpec>, seen: set<string>, i: nat)
    requires i < |specs|
  {
    && specs[i].id != "" && '$' !in specs[i].id && |specs[i].material| == 32
    && specs[i].id !in seen && forall j | 0 <= j < i :: specs[j].id != specs[i].id
  }

  /** Entry `i` is the first that cannot be taken, and `e` says why: of several reasons the first of
      id, length and duplicate. */
  predicate FaultAt(specs: seq<KeySpec>, seen: set<string>, i: nat, e: Error) {
    && i < |specs| && !Usable(specs, seen, i) && (forall j | 0 <= j < i :: Usable(specs, seen, j))
    && (e.BadId? || e.BadLength? || e.DuplicateId?) && e.id == specs[i].id
    && (e.BadId? <==> specs[i].id == "" || '$' in specs[i].id)
    && (e.BadLength? <==> !(specs[i].id == "" || '$' in specs[i].id) && |specs[i].material| != 32)
  }

  lemma {:induction false} UsableTail(specs: seq<KeySpec>, seen: set<string>, i: nat)
    requires 1 <= i < |specs|
    ensures Usable(specs, seen, i) <==> Usable(specs[1..], seen + {specs[0].id}, i - 1)
  {
    if Usable(specs[1..], seen + {specs[0].id}, i - 1) {
      forall j | 0 <= j < i ensures specs[j].id != specs[i].id { if j > 0 { assert specs[1..][j - 1] == specs[j]; } }
    }
  }

  lemma {:induction false} LaterFault(specs: seq<KeySpec>, seen: set<string>, i: nat, e: Error)
    requires specs != [] && Usable(specs, seen, 0) && FaultAt(specs[1..], seen + {specs[0].id}, i, e)
    ensures FaultAt(specs, seen, i + 1, e)
  {
    forall j | 1 <= j <= i + 1 ensures Usable(specs, seen, j) <==> Usable(specs[1..], seen + {specs[0].id}, j - 1) { UsableTail(specs, seen, j); }
    assert specs[i + 1] == specs[1..][i];
  }

  lemma {:induction false} FirstFaultIs(specs: seq<KeySpec>, seen: set<string>)
    ensures FirstFault(specs, seen).None? ==> forall i | 0 <= i < |specs| :: Usable(specs, seen, i)
    ensures FirstFault(specs, seen).Some? ==> exists i: nat :: FaultAt(specs, seen, i, FirstFault(specs, seen).value)
  {
    if specs != [] {
      var rest, more := specs[1..], seen + {specs[0].id};
      if Usable(specs, seen, 0) {
        FirstFaultIs(rest, more);
        forall i | 1 <= i < |specs| ensures Usable(specs, seen, i) <==> Usable(rest, more, i - 1) { UsableTail(specs, seen, i); }
        if FirstFault(rest, more).Some? {
          var i: nat :| FaultAt(rest, more, i, FirstFault(rest, more).value);
          LaterFault(specs, seen, i, FirstFault(rest, more).value);
        }
      } else {
        assert FaultAt(specs, seen, 0, FirstFault(specs, seen).value);
      }
    }
  }

  lemma {:induction false} OneFault(specs: seq<KeySpec>, i: nat, e: Error, j: nat, f: Error)
    requires FaultAt(specs, {}, i, e) && FaultAt(specs, {}, j, f)
    ensures e == f
  {
    assert i == j;
  }

  method LoadKeys(specs: seq<KeySpec>) returns (r: Result<map<string, Bytes>>)
    ensures FirstFault(specs, {}).Some? ==> r == Err(FirstFault(specs, {}).value)
    ensures FirstFault(specs, {}).None? ==> r.Ok? && HoldsExactly(r.value, specs) && forall id | id in r.value :: id != "" && '$' !in id
  {
    var keys: map<string, Bytes> := map[];
    assert specs[0..] == specs && keys.Keys == {};
    for i := 0 to |specs|
      invariant FirstFault(specs, {}) == FirstFault(specs[i..], keys.Keys)
      invariant HoldsExactly(keys, specs[..i])
      invariant forall id | id in keys :: id != "" && '$' !in id
    {
      var s := specs[i];
      assert specs[i..][1..] == specs[i + 1..];
      if s.id == "" || '$' in s.id { return Err(BadId(s.id)); }
      if |s.material| != 32 { return Err(BadLength(s.id)); }
      if s.id in keys { return Err(DuplicateId(s.id)); }
      HoldsSnoc(keys, specs, i);
      keys := keys[s.id := s.material];
    }
    assert specs[..|specs|] == specs;
    r := Ok(keys);
  }

  method TryOrder(primary: string, specs: seq<KeySpec>) returns (order: seq<string>)
    ensures order == [primary] + Others(specs, primary)
  {
    order := [primary];
    for i := 0 to |specs|
      invariant order + Others(specs[i..], primary) == [primary] + Others(specs, primary)
    {
      assert specs[i..][1..] == specs[i + 1..];
      if specs[i].id != primary { order := order + [specs[i].id]; }
    }
  }

  lemma {:induction false} OrderCovers(primary: string, specs: seq<KeySpec>, keys: map<string, Bytes>)
    requires HoldsExactly(keys, specs) && primary in keys && forall id | id in keys :: id != "" && '$' !in id
    ensures WellFormed(Ring(primary, keys, [primary] + Others(specs, primary)))
  {
    var order := [primary] + Others(specs, primary);
    forall id ensures id in order <==> id in keys {
      OthersContent(specs, primary, id);
    }
    forall i | 0 <= i < |order| ensures order[i] in keys {
      assert order[i] in order;
    }
  }

  /** Assembles a ring, or reports the first fault of the key list, or a missing primary. */
  method NewFromProvider(primary: string, specs: seq<KeySpec>) returns (r: Result<Ring>)
    ensures specs == [] ==> r == Err(NoKeys)
    ensures forall i: nat, e | specs != [] && FaultAt(specs, {}, i, e) :: r == Err(e)
    ensures specs != [] && (forall i | 0 <= i < |specs| :: Usable(specs, {}, i)) && !Names(specs, primary) ==> r == Err(NoPrimary(primary))
    ensures specs != [] && (forall i | 0 <= i < |specs| :: Usable(specs, {}, i)) && Names(specs, primary) ==>
              r.Ok? && WellFormed(r.value) && r.value.primary == primary && HoldsExactly(r.value.keys, specs)
              && r.value.order == [primary] + Others(specs, primary)
  {
    if specs == [] { return Err(NoKeys); }
    FirstFaultIs(specs, {});
    if FirstFault(specs, {}).Some? {
      var j: nat :| FaultAt(specs, {}, j, FirstFault(specs, {}).value);
      forall i: nat, e | FaultAt(specs, {}, i, e) ensures e == FirstFault(specs, {}).value { OneFault(specs, i, e, j, FirstFault(specs, {}).value); }
    }
    var keys := LoadKeys(specs);
    if keys.Err? { return Err(keys.error); }
    if primary !in keys.value { return Err(NoPrimary(primary)); }
    var order := TryOrder(primary, specs);
    OrderCovers(primary, specs, keys.value);
    r := Ok(Ring(primary, keys.value, order));
  }

  // ---- encrypting and decrypting ----

  function IndexOf(s: string, c: char): Option<nat> {
    if s == "" then None
    else if s[0] == c then Some(0)
    else match IndexOf(s[1..], c) case None => None case Some(i) => Some(i + 1)
  }

  lemma {:induction false} IndexOfPrefixed(id: string, c: char, rest: string)
    requires c !in id
    ensures IndexOf(id + [c] + rest, c) == Some(|id|)
  {
    if id == "" {
      assert (id + [c] + rest)[0] == c;
    } else {
      assert (id + [c] + rest)[1..] == id[1..] + [c] + rest;
      IndexOfPrefixed(id[1..], c, rest);
    }
  }

  lemma {:induction false} IndexOfAbsent(s: string, c: char)
    ensures IndexOf(s, c).None? <==> c !in s
    ensures IndexOf(s, c).Some? ==> IndexOf(s, c).value < |s| && s[IndexOf(s, c).value] == c
  {
    if s != "" { IndexOfAbsent(s[1..], c); }
  }

  /** `nonce` is None when the random source fails. */
  function Encrypt(a: Aead, r: Ring, nonce: Option<string>, plain: string): Result<string>
    requires r.primary in r.keys
  {
    if nonce.None? then Err(SealFailed) else Ok(r.primary + ['$'] + a.seal(r.keys[r.primary], nonce.value, plain))
  }

  function TryAll(a: Aead, keys: map<string, Bytes>, order: seq<string>, enc: string): Result<string>
    requires forall i | 0 <= i < |order| :: order[i] in keys
  {
    if order == [] then Err(NoLegacyKey)
    else match a.open(keys[order[0]], enc) case Some(p) => Ok(p) case None => TryAll(a, keys, order[1..], enc)
  }

  function Decrypt(a: Aead, r: Ring, enc: string): Result<string>
    requires forall i | 0 <= i < |r.order| :: r.order[i] in r.keys
  {
    IndexOfAbsent(enc, '$');
    match IndexOf(enc, '$')
    case Some(i) =>
      if enc[..i] !in r.keys then Err(UnknownKey(enc[..i]))
      else (match a.open(r.keys[enc[..i]], enc[i + 1..]) case Some(p) => Ok(p) case None => Err(OpenFailed))
    case None => TryAll(a, r.keys, r.order, enc)
  }

  predicate UnderPrimary(r: Ring, enc: string) {
    IndexOfAbsent(enc, '$');
    match IndexOf(enc, '$') case Some(i) => enc[..i] == r.primary case None => false
  }

  datatype Sealed = Sealed(enc: string, changed: bool)

  function Reencrypt(a: Aead, r: Ring, nonce: Option<string>, enc: string): Result<Sealed>
    requires WellFormed(r)
  {
    if UnderPrimary(r, enc) then Ok(Sealed(enc, false))
    else match Decrypt(a, r, enc)
      case Err(e) => Err(e)
      case Ok(p) =>
        match Encrypt(a, r, nonce, p) case Err(e) => Err(e) case Ok(n) => Ok(Sealed(n, true))
  }

  // ---- laws of the ring ----

  lemma {:induction false} OpensNamed(a: Aead, r: Ring, id: string, payload: string)
    requires WellFormed(r) && '$' !in id
    ensures Decrypt(a, r, id + ['$'] + payload) ==
            if id !in r.keys then Err(UnknownKey(id))
            else match a.open(r.keys[id], payload) case Some(p) => Ok(p) case None => Err(OpenFailed)
  {
    var enc := id + ['$'] + payload;
    IndexOfPrefixed(id, '$', payload);
    assert enc[..|id|] == id && enc[|id| + 1..] == payload;
  }

  /** What one ring encrypts, every ring that keeps the key under its id decrypts. */
  lemma {:induction false} RotationRoundTrip(a: Aead, r: Ring, later: Ring, nonce: string, plain: string)
    requires Lawful(a) && WellFormed(r) && WellFormed(later)
    requires r.primary in later.keys && later.keys[r.primary] == r.keys[r.primary]
    ensures var enc := Encrypt(a, r, Some(nonce), plain); enc.Ok? && Decrypt(a, later, enc.value) == Ok(plain)
    ensures UnderPrimary(r, Encrypt(a, r, Some(nonce), plain).value)
  {
    var payload := a.seal(r.keys[r.primary], nonce, plain);
    OpensNamed(a, later, r.primary, payload);
    IndexOfPrefixed(r.primary, '$', payload);
    assert (r.primary + ['$'] + payload)[..|r.primary|] == r.primary;
  }

  lemma {:induction false} TryAllFinds(a: Aead, keys: map<string, Bytes>, order: seq<string>, k: Bytes, nonce: string, plain: string)
    requires Lawful(a) && (forall i | 0 <= i < |order| :: order[i] in keys)
    ensures TryAll(a, keys, order, a.seal(k, nonce, plain)) ==
            if exists i | 0 <= i < |order| :: keys[order[i]] == k then Ok(plain) else Err(NoLegacyKey)
  {
    if order != [] {
      TryAllFinds(a, keys, order[1..], k, nonce, plain);
      if keys[order[0]] != k {
        if i :| 0 <= i < |order| && keys[order[i]] == k { assert order[1..][i - 1] == order[i]; }
        if i :| 0 <= i < |order[1..]| && keys[order[1..][i]] == k { assert order[i + 1] == order[1..][i]; }
      }
    }
  }

  /** Unprefixed ciphertext decrypts exactly when the ring holds the key that sealed it, and
      never to anything but its plaintext. */
  lemma {:induction false} LegacyDecrypts(a: Aead, r: Ring, k: Bytes, nonce: string, plain: string)
    requires Lawful(a) && WellFormed(r)
    ensures Decrypt(a, r, a.seal(k, nonce, plain)) ==
            if exists id | id in r.keys :: r.keys[id] == k then Ok(plain) else Err(NoLegacyKey)
  {
    var enc := a.seal(k, nonce, plain);
    IndexOfAbsent(enc, '$');
    TryAllFinds(a, r.keys, r.order, k, nonce, plain);
    if id :| id in r.keys && r.keys[id] == k {
      var i :| 0 <= i < |r.order| && r.order[i] == id;
    }
  }

  /** The ring that is left when only the primary key is kept. */
  function PrimaryOnly(r: Ring): Ring
    requires r.primary in r.keys
  {
    Ring(r.primary, map[r.primary := r.keys[r.primary]], [r.primary])
  }

  /** Once a ciphertext is under the primary id, dropping the other keys changes nothing. */
  lemma {:induction false} PrimaryIsEnough(a: Aead, r: Ring, enc: string)
    requires WellFormed(r) && UnderPrimary(r, enc)
    ensures WellFormed(PrimaryOnly(r)) && Decrypt(a, PrimaryOnly(r), enc) == Decrypt(a, r, enc)
  {
    IndexOfAbsent(enc, '$');
  }

  /** Re-encryption never changes what a credential decrypts to, and what it rewrites is under
      the primary key. */
  lemma {:induction false} ReencryptSound(a: Aead, r: Ring, nonce: Option<string>, enc: string)
    requires Lawful(a) && WellFormed(r)
    ensures var out := Reencrypt(a, r, nonce, enc);
            && (out.Ok? ==> UnderPrimary(r, out.value.enc) && Decrypt(a, r, out.value.enc) == Decrypt(a, r, enc))
            && (out.Ok? && !out.value.changed ==> out.value.enc == enc)
            && (out.Ok? && !out.value.changed <==> UnderPrimary(r, enc))
            && (out.Err? <==> !UnderPrimary(r, enc) && (Decrypt(a, r, enc).Err? || nonce.None?))
  {
    if !UnderPrimary(r, enc) && Decrypt(a, r, enc).Ok? && nonce.Some? {
      RotationRoundTrip(a, r, r, nonce.value, Decrypt(a, r, enc).value);
    }
  }
}
