/** The keyring's assumptions about its cipher can be met: a toy one that meets them. */
module KeyringWitness {
  import opened Text
  import opened Keyring

  /** Two characters for each byte of the key, and none of them a '$'. */
  function KeyMark(k: Bytes): string {
    if k == [] then "" else ['k', (k[0] as int + 65) as char] + KeyMark(k[1..])
  }

  /** Two characters for each character of the text, with '$' written out. */
  function Spelled(p: string): string {
    if p == "" then "" else (if p[0] == '$' then "ad" else ['b', p[0]]) + Spelled(p[1..])
  }

  function Unspelled(s: string): string {
    if |s| < 2 then "" else (if s[0] == 'a' then "$" else [s[1]]) + Unspelled(s[2..])
  }

  function ToyOpen(k: Bytes, s: string): Option<string> {
    var n := |KeyMark(k)|;
    if n <= |s| && s[..n] == KeyMark(k) && (n == |s| || s[n] != 'k') then Some(Unspelled(s[n..])) else None
  }

  const TOY := Aead((k: Bytes, n: string, p: string) => KeyMark(k) + Spelled(p), (k: Bytes, s: string) => ToyOpen(k, s))

  lemma {:induction false} SpelledFacts(p: string)
    ensures Unspelled(Spelled(p)) == p && '$' !in Spelled(p) && (p != "" ==> Spelled(p)[0] != 'k')
  {
    if p != "" {
      SpelledFacts(p[1..]);
      var s := Spelled(p);
      assert s[2..] == Spelled(p[1..]);
      HeadTail(p);
    }
  }

  lemma {:induction false} KeyMarkFacts(k: Bytes)
    ensures |KeyMark(k)| == 2 * |k| && '$' !in KeyMark(k) && forall i | 0 <= i < |k| :: KeyMark(k)[2 * i] == 'k'
  {
    if k != [] {
      KeyMarkFacts(k[1..]);
      forall i | 0 <= i < |k| ensures KeyMark(k)[2 * i] == 'k' {
        if i > 0 { assert KeyMark(k)[2 * i] == KeyMark(k[1..])[2 * (i - 1)]; }
      }
    }
  }

  lemma {:induction false} KeyMarkInjective(k: Bytes, l: Bytes)
    requires KeyMark(k) == KeyMark(l)
    ensures k == l
  {
    KeyMarkFacts(k);
    KeyMarkFacts(l);
    if k != [] {
      assert KeyMark(k)[1] == KeyMark(l)[1];
      assert KeyMark(k)[2..] == KeyMark(k[1..]) && KeyMark(l)[2..] == KeyMark(l[1..]);
      KeyMarkInjective(k[1..], l[1..]);
      assert k == [k[0]] + k[1..] && l == [l[0]] + l[1..];
    }
  }

  lemma {:induction false} RightKeyOpens(k: Bytes, p: string)
    ensures ToyOpen(k, KeyMark(k) + Spelled(p)) == Some(p) && '$' !in KeyMark(k) + Spelled(p)
  {
    KeyMarkFacts(k);
    SpelledFacts(p);
    var s, n := KeyMark(k) + Spelled(p), |KeyMark(k)|;
    assert s[..n] == KeyMark(k) && s[n..] == Spelled(p);
    assert n < |s| ==> s[n] == Spelled(p)[0];
  }

  lemma {:induction false} LongerKeyDiffers(k: Bytes, l: Bytes, p: string)
    requires |k| < |l|
    ensures var s, n := KeyMark(k) + Spelled(p), |KeyMark(l)|; n <= |s| ==> s[..n] != KeyMark(l)
  {
    KeyMarkFacts(k);
    KeyMarkFacts(l);
    SpelledFacts(p);
    var s, n := KeyMark(k) + Spelled(p), |KeyMark(l)|;
    if n <= |s| {
      assert s[2 * |k|] == Spelled(p)[0];
      assert s[..n][2 * |k|] != KeyMark(l)[2 * |k|];
    }
  }

  lemma {:induction false} ShorterKeyDiffers(k: Bytes, l: Bytes, p: string)
    requires |l| < |k|
    ensures var s, n := KeyMark(k) + Spelled(p), |KeyMark(l)|; n < |s| && s[n] == 'k'
  {
    KeyMarkFacts(k);
    KeyMarkFacts(l);
    assert (KeyMark(k) + Spelled(p))[2 * |l|] == KeyMark(k)[2 * |l|];
  }

  lemma {:induction false} SameLengthDiffers(k: Bytes, l: Bytes, p: string)
    requires |k| == |l| && k != l
    ensures var s, n := KeyMark(k) + Spelled(p), |KeyMark(l)|; n <= |s| && s[..n] != KeyMark(l)
  {
    KeyMarkFacts(k);
    KeyMarkFacts(l);
    assert (KeyMark(k) + Spelled(p))[..|KeyMark(l)|] == KeyMark(k);
    if KeyMark(k) == KeyMark(l) { KeyMarkInjective(k, l); }
  }

  lemma {:induction false} WrongKeyFails(k: Bytes, l: Bytes, p: string)
    requires k != l
    ensures ToyOpen(l, KeyMark(k) + Spelled(p)) == None
  {
    if |k| < |l| {
      LongerKeyDiffers(k, l, p);
    } else if |l| < |k| {
      ShorterKeyDiffers(k, l, p);
    } else {
      SameLengthDiffers(k, l, p);
    }
  }

  /** A lawful cipher exists. */
  lemma {:induction false} LawfulExists()
    ensures Lawful(TOY)
  {
    forall k, n, p ensures TOY.open(k, TOY.seal(k, n, p)) == Some(p) && '$' !in TOY.seal(k, n, p) {
      RightKeyOpens(k, p);
    }
    forall k, k', n, p | k != k' ensures TOY.open(k', TOY.seal(k, n, p)) == None {
      WrongKeyFails(k, k', p);
    }
  }
}
