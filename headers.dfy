/** Header names and header collections as the proxy uses them: the canonical
    form net/http gives keys, the ASCII lower-casing the credential test
    applies, Header.Get and Header.Add, and cloneHeaders, which copies the
    inbound headers for the forwarded request without the credential. */
module Headers {

  /** A header collection: each key maps to its values in the order they were added. */
  type Header = map<string, seq<string>>

  /** The name of the header that carries the proxy's shared secret, as the source spells it. */
  const CredentialHeader: string := "X-API-Key"

  /** True of the characters RFC 7230 allows in a header field name (tchar). */
  predicate IsTokenChar(c: char) {
    || ('a' <= c <= 'z') || ('A' <= c <= 'Z') || ('0' <= c <= '9')
    || c in "!#$%&'*+-.^_`|~"
  }

  function LowerChar(c: char): char {
    if 'A' <= c <= 'Z' then (c as int + 32) as char else c
  }

  function UpperChar(c: char): char {
    if 'a' <= c <= 'z' then (c as int - 32) as char else c
  }

  /** strings.ToLower restricted to ASCII: every upper-case letter becomes lower-case. */
  function ToLower(s: string): string {
    seq(|s|, i requires 0 <= i < |s| => LowerChar(s[i]))
  }

  /** The case-normalising pass of CanonicalMIMEHeaderKey: a letter is upper-case
      when `upper` holds (at the start and after each '-') and lower-case otherwise. */
  function CanonFrom(s: string, upper: bool): (r: string)
    ensures |r| == |s|
  {
    if s == [] then []
    else
      var c := if upper then UpperChar(s[0]) else LowerChar(s[0]);
      [c] + CanonFrom(s[1..], c == '-')
  }

  predicate AllTokenChars(s: string) {
    forall i :: 0 <= i < |s| ==> IsTokenChar(s[i])
  }

  /** textproto.CanonicalMIMEHeaderKey, the key Header.Add and Header.Get use:
      a key made only of token characters is case-normalised ("x-api-key"
      becomes "X-Api-Key"), each character by its position (CanonAt); any other
      key is returned unchanged. */
  function CanonicalKey(k: string): (r: string)
    ensures |r| == |k|
  {
    if AllTokenChars(k) then seq(|k|, i requires 0 <= i < |k| => CanonAt(k, true, i)) else k
  }

  /** The position-wise definition agrees with the left-to-right pass that
      carries the "upper" flag from one character to the next. */
  lemma CanonicalKeyIsPass(k: string)
    requires AllTokenChars(k)
    ensures CanonicalKey(k) == CanonFrom(k, true)
  {
    CanonFromAt(k, true);
  }

  /** Canonicalising changes only letter case: lower-casing cannot tell a key
      from its canonical form. */
  lemma CanonicalKeyLower(k: string)
    ensures ToLower(CanonicalKey(k)) == ToLower(k)
  {
    if AllTokenChars(k) {
      CanonicalKeyIsPass(k);
      CanonFromLower(k, true);
    }
  }

  /** Canonicalising a canonical key changes nothing. */
  lemma CanonicalKeyIdempotent(k: string)
    ensures CanonicalKey(CanonicalKey(k)) == CanonicalKey(k)
  {
    if AllTokenChars(k) {
      CanonicalKeyIsPass(k);
      CanonFromTokens(k, true);
      CanonicalKeyIsPass(CanonicalKey(k));
      CanonFromIdempotent(k, true);
    }
  }

  lemma {:induction false} CanonFromLower(s: string, upper: bool)
    ensures ToLower(CanonFrom(s, upper)) == ToLower(s)
  {
    if s != [] {
      var c := if upper then UpperChar(s[0]) else LowerChar(s[0]);
      CanonFromLower(s[1..], c == '-');
      assert ToLower(CanonFrom(s, upper)) == [LowerChar(c)] + ToLower(CanonFrom(s[1..], c == '-'));
      assert ToLower(s) == [LowerChar(s[0])] + ToLower(s[1..]);
    }
  }

  /** Changing the case of a character keeps it a token character. */
  lemma CaseKeepsToken(c: char)
    requires IsTokenChar(c)
    ensures IsTokenChar(UpperChar(c)) && IsTokenChar(LowerChar(c))
  {
    if !('a' <= c <= 'z') && !('A' <= c <= 'Z') {
      assert UpperChar(c) == c && LowerChar(c) == c;
    }
  }

  lemma CanonFromTokens(s: string, upper: bool)
    requires AllTokenChars(s)
    ensures AllTokenChars(CanonFrom(s, upper))
  {
    CanonFromAt(s, upper);
    forall i | 0 <= i < |s| ensures IsTokenChar(CanonFrom(s, upper)[i]) {
      CaseKeepsToken(s[i]);
    }
  }

  /** The character the case-normalising pass puts at position i: upper-case
      at the start (when `upper` holds) and after a '-', lower-case elsewhere. */
  function CanonAt(s: string, upper: bool, i: nat): char
    requires i < |s|
  {
    if (if i == 0 then upper else s[i - 1] == '-') then UpperChar(s[i]) else LowerChar(s[i])
  }

  /** The pass character by character. */
  lemma {:induction false} CanonFromAt(s: string, upper: bool)
    ensures forall i :: 0 <= i < |s| ==> CanonFrom(s, upper)[i] == CanonAt(s, upper, i)
  {
    if s != [] {
      var c := if upper then UpperChar(s[0]) else LowerChar(s[0]);
      CanonFromAt(s[1..], c == '-');
      assert (c == '-') == (s[0] == '-');
      forall i | 0 <= i < |s| ensures CanonFrom(s, upper)[i] == CanonAt(s, upper, i) {
        if i > 0 {
          assert CanonFrom(s, upper)[i] == CanonFrom(s[1..], c == '-')[i - 1];
          assert CanonAt(s[1..], c == '-', i - 1) == CanonAt(s, upper, i);
        }
      }
    }
  }

  lemma {:induction false} CanonFromIdempotent(s: string, upper: bool)
    ensures CanonFrom(CanonFrom(s, upper), upper) == CanonFrom(s, upper)
  {
    if s != [] {
      var c := if upper then UpperChar(s[0]) else LowerChar(s[0]);
      var r := CanonFrom(s, upper);
      assert r[0] == c && r[1..] == CanonFrom(s[1..], c == '-');
      var c' := if upper then UpperChar(c) else LowerChar(c);
      assert c' == c;
      CanonFromIdempotent(s[1..], c == '-');
    }
  }

  /** The credential test of cloneHeaders: the key lower-cases to "x-api-key". */
  predicate IsCredentialKey(k: string) {
    ToLower(k) == "x-api-key"
  }

  /** The credential is recognised in any letter case. */
  lemma CredentialSpellings()
    ensures IsCredentialKey("X-API-Key") && IsCredentialKey("x-api-key") && IsCredentialKey("X-Api-Key")
    ensures !IsCredentialKey("X-API-Keys")
  {
    assert ToLower("X-API-Key") == "x-api-key";
    assert ToLower("X-Api-Key") == "x-api-key";
    assert ToLower("x-api-key") == "x-api-key";
  }

  /** A key is a credential key exactly when its canonical form is one. */
  lemma CredentialKeyCanonical(k: string)
    ensures IsCredentialKey(CanonicalKey(k)) <==> IsCredentialKey(k)
  {
    CanonicalKeyLower(k);
  }

  /** The credential keys are exactly the nine-character strings that spell
      "x-api-key" with each letter in either case. */
  lemma CredentialKeyLetters(k: string)
    ensures IsCredentialKey(k) <==>
              |k| == 9 && forall i :: 0 <= i < 9 ==> k[i] == "x-api-key"[i] || k[i] == "X-API-KEY"[i]
  {
    var lower, upper := "x-api-key", "X-API-KEY";
    if |k| == 9 {
      if forall i :: 0 <= i < 9 ==> k[i] == lower[i] || k[i] == upper[i] {
        forall i | 0 <= i < 9 ensures ToLower(k)[i] == lower[i] {
          assert LowerChar(upper[i]) == lower[i];
        }
        assert ToLower(k) == lower;
      }
      if IsCredentialKey(k) {
        forall i | 0 <= i < 9 ensures k[i] == lower[i] || k[i] == upper[i] {
          assert LowerChar(k[i]) == lower[i];
        }
      }
    }
  }

  /** The values stored under key k, none when k is absent. */
  function Values(h: Header, k: string): seq<string> {
    if k in h then h[k] else []
  }

  /** Header.Get: the first value stored under the canonical form of name, or ""
      when there is none (absent key or empty value list). */
  function Get(h: Header, name: string): string {
    var c := CanonicalKey(name);
    if c in h && h[c] != [] then h[c][0] else ""
  }

  /** Header.Add: appends v to the values of the canonical form of k; every
      other key keeps its values, and no key but the canonical one appears. */
  function Add(h: Header, k: string, v: string): (r: Header)
    ensures Values(r, CanonicalKey(k)) == Values(h, CanonicalKey(k)) + [v]
    ensures r.Keys == h.Keys + {CanonicalKey(k)}
    ensures forall j :: j in h && j != CanonicalKey(k) ==> r[j] == h[j]
  {
    h[CanonicalKey(k) := Values(h, CanonicalKey(k)) + [v]]
  }

  /** Header.Get reads what Header.Add stored: every spelling with the same
      canonical form reads the same value; after an Add the name reads its
      first value, which is v when the name held none; an Add under another
      canonical key changes nothing Get reads. */
  lemma GetAfterAdd(h: Header, name: string, v: string)
    ensures Get(h, CanonicalKey(name)) == Get(h, name)
    ensures Get(Add(h, name, v), name) ==
              if Values(h, CanonicalKey(name)) == [] then v else Get(h, name)
    ensures forall other :: CanonicalKey(other) != CanonicalKey(name) ==>
              Get(Add(h, name, v), other) == Get(h, other)
  {
    CanonicalKeyIdempotent(name);
  }

  /** The inner loop of cloneHeaders: Add each value of vs under key k, in order. */
  function AddAll(h: Header, k: string, vs: seq<string>): Header
    decreases |vs|
  {
    if vs == [] then h else Add(AddAll(h, k, vs[..|vs| - 1]), k, vs[|vs| - 1])
  }

  /** Adding one more value after vs is one more Add. */
  lemma AddAllSnoc(h: Header, k: string, vs: seq<string>, i: nat)
    requires i < |vs|
    ensures AddAll(h, k, vs[..i + 1]) == Add(AddAll(h, k, vs[..i]), k, vs[i])
  {
    assert vs[..i + 1][..i] == vs[..i];
  }

  /** Adding the values one at a time appends all of them, in their order, to
      what the canonical key already held; a key with no values is not created. */
  lemma {:induction false} AddAllAppends(h: Header, k: string, vs: seq<string>)
    ensures var c := CanonicalKey(k);
            AddAll(h, k, vs) == if vs == [] then h else h[c := Values(h, c) + vs]
    decreases |vs|
  {
    if vs != [] {
      var c := CanonicalKey(k);
      var init := vs[..|vs| - 1];
      AddAllAppends(h, k, init);
      if init == [] {
        assert vs == [vs[0]];
      } else {
        assert init + [vs[|vs| - 1]] == vs;
        var h1 := h[c := Values(h, c) + init];
        assert AddAll(h, k, vs) == Add(h1, k, vs[|vs| - 1]);
        assert Values(h1, c) == Values(h, c) + init;
        assert Values(h, c) + init + [vs[|vs| - 1]] == Values(h, c) + vs;
        assert Add(h1, k, vs[|vs| - 1]) == h1[c := Values(h, c) + vs];
      }
    }
  }

  /** A source key that cloneHeaders copies: not the credential, with at least one value. */
  predicate Kept(src: Header, k: string) {
    k in src && !IsCredentialKey(k) && src[k] != []
  }

  predicate Distinct(ks: seq<string>) {
    forall i, j :: 0 <= i < j < |ks| ==> ks[i] != ks[j]
  }

  /** What cloneHeaders builds when the range over src visits the keys in the
      order ks (Go leaves that order unspecified): each kept key's values are
      added under its canonical form; credential keys are skipped. */
  function CloneAlong(src: Header, ks: seq<string>): Header
    decreases |ks|
  {
    if ks == [] then map[]
    else
      var k := ks[|ks| - 1];
      var d := CloneAlong(src, ks[..|ks| - 1]);
      if k in src && !IsCredentialKey(k) then AddAll(d, k, src[k]) else d
  }

  /** No other key of ks has the same canonical form as k. */
  predicate UniqueIn(ks: seq<string>, k: string) {
    forall j :: j in ks && j != k ==> CanonicalKey(j) != CanonicalKey(k)
  }

  /** The shape of a clone for any visiting order: its keys are exactly the
      canonical forms of the kept keys, and a kept key that shares its canonical
      form with no other key keeps exactly its own values, in order. */
  lemma {:induction false} CloneAlongShape(src: Header, ks: seq<string>)
    requires Distinct(ks)
    ensures forall c :: c in CloneAlong(src, ks) ==>
              exists k :: k in ks && Kept(src, k) && CanonicalKey(k) == c
    ensures forall k :: k in ks && Kept(src, k) ==> CanonicalKey(k) in CloneAlong(src, ks)
    ensures forall k :: k in ks && Kept(src, k) && UniqueIn(ks, k) ==>
              CloneAlong(src, ks)[CanonicalKey(k)] == src[k]
    decreases |ks|
  {
    if ks != [] {
      var j := ks[|ks| - 1];
      var init := ks[..|ks| - 1];
      assert ks == init + [j];
      assert Distinct(init);
      assert j !in init;
      CloneAlongShape(src, init);
      var d0 := CloneAlong(src, init);
      var d := CloneAlong(src, ks);
      if j in src && !IsCredentialKey(j) {
        AddAllAppends(d0, j, src[j]);
        var cj := CanonicalKey(j);
        forall k | k in ks && Kept(src, k) && UniqueIn(ks, k)
          ensures d[CanonicalKey(k)] == src[k]
        {
          if k != j {
            assert k in init;
            assert UniqueIn(init, k);
            assert CanonicalKey(j) != CanonicalKey(k);
          }
        }
        forall c | c in d ensures exists k :: k in ks && Kept(src, k) && CanonicalKey(k) == c {
          if c in d0 {
            var k :| k in init && Kept(src, k) && CanonicalKey(k) == c;
            assert k in ks;
          } else {
            assert c == cj && src[j] != [];
            assert j in ks && Kept(src, j);
          }
        }
        forall k | k in ks && Kept(src, k) ensures CanonicalKey(k) in d {
          if k != j { assert k in init; }
        }
      } else {
        assert d == d0;
        forall k | k in ks && Kept(src, k) ensures k in init { }
        forall c | c in d ensures exists k :: k in ks && Kept(src, k) && CanonicalKey(k) == c {
          var k :| k in init && Kept(src, k) && CanonicalKey(k) == c;
          assert k in ks;
        }
        forall k | k in ks && Kept(src, k) && UniqueIn(ks, k) ensures UniqueIn(init, k) { }
      }
    }
  }

  /** Every key of net/http's parsed request headers is already in canonical form. */
  predicate CanonicalKeys(h: Header) {
    forall k :: k in h ==> CanonicalKey(k) == k
  }

  /** The reference result of cloneHeaders on canonically keyed headers: every
      key except the credential, with its values, dropping keys without values. */
  function Stripped(src: Header): Header {
    map k | k in src && Kept(src, k) :: src[k]
  }

  /** On canonically keyed headers the visiting order does not matter: every
      order gives the reference result. */
  lemma CloneAlongCanonical(src: Header, ks: seq<string>)
    requires CanonicalKeys(src)
    requires Distinct(ks)
    requires forall k :: k in ks <==> k in src
    ensures CloneAlong(src, ks) == Stripped(src)
  {
    CloneAlongShape(src, ks);
    var d := CloneAlong(src, ks);
    forall k | k in ks && Kept(src, k) ensures UniqueIn(ks, k) { }
    forall c | c in d ensures c in Stripped(src) {
      var k :| k in ks && Kept(src, k) && CanonicalKey(k) == c;
    }
  }

  /** One more visited key: a kept key's values are added after what the
      earlier keys built; a credential key adds nothing. */
  lemma CloneAlongSnoc(src: Header, ks: seq<string>, k: string)
    ensures CloneAlong(src, ks + [k]) ==
              if k in src && !IsCredentialKey(k) then AddAll(CloneAlong(src, ks), k, src[k])
              else CloneAlong(src, ks)
  {
    assert (ks + [k])[..|ks|] == ks;
  }

  /** What a clone along an order that visits every key of src exactly once
      holds: no credential key; exactly the canonical forms of the kept keys;
      the values of every kept key whose canonical form is its own; and, for
      canonically keyed src, the reference result. */
  lemma CloneAlongComplete(src: Header, order: seq<string>)
    requires Distinct(order) && forall k :: k in order <==> k in src
    ensures var dest := CloneAlong(src, order);
            && (forall c :: c in dest ==> !IsCredentialKey(c))
            && (forall c :: c in dest ==> exists k :: Kept(src, k) && CanonicalKey(k) == c)
            && (forall k :: Kept(src, k) ==> CanonicalKey(k) in dest)
            && (forall k :: Kept(src, k) && UniqueIn(order, k) ==> dest[CanonicalKey(k)] == src[k])
            && (CanonicalKeys(src) ==> dest == Stripped(src))
  {
    CloneAlongShape(src, order);
    var dest := CloneAlong(src, order);
    forall c | c in dest ensures !IsCredentialKey(c) {
      var k :| k in order && Kept(src, k) && CanonicalKey(k) == c;
      CredentialKeyCanonical(k);
    }
    if CanonicalKeys(src) {
      CloneAlongCanonical(src, order);
    }
  }

  /** The inner loop of cloneHeaders: Header.Add of each value of vv under
      key k, in order. */
  method AddValues(h: Header, k: string, vv: seq<string>) returns (dest: Header)
    ensures dest == AddAll(h, k, vv)
  {
    dest := h;
    var i := 0;
    while i < |vv|
      invariant 0 <= i <= |vv|
      invariant dest == AddAll(h, k, vv[..i])
    {
      AddAllSnoc(h, k, vv, i);
      dest := Add(dest, k, vv[i]);
      i := i + 1;
    }
    assert vv[..i] == vv;
  }

  /** cloneHeaders: copies every header of src into a fresh collection by the
      same range-and-Add loops as the source, skipping any key whose lower-cased
      form is "x-api-key". The ghost result `order` is the order in which the
      range visited the keys. */
  method CloneHeaders(src: Header) returns (dest: Header, ghost order: seq<string>)
    ensures Distinct(order) && forall k :: k in order <==> k in src
    ensures dest == CloneAlong(src, order)
    ensures forall c :: c in dest ==> !IsCredentialKey(c)
    ensures forall c :: c in dest ==> exists k :: Kept(src, k) && CanonicalKey(k) == c
    ensures forall k :: Kept(src, k) ==> CanonicalKey(k) in dest
    ensures forall k :: Kept(src, k) && UniqueIn(order, k) ==> dest[CanonicalKey(k)] == src[k]
    ensures CanonicalKeys(src) ==> dest == Stripped(src)
  {
    dest := map[];
    order := [];
    var rest := src.Keys;
    while rest != {}
      invariant rest <= src.Keys
      invariant forall k :: k in order <==> k in src && k !in rest
      invariant Distinct(order)
      invariant dest == CloneAlong(src, order)
      decreases rest
    {
      var k :| k in rest;
      CloneAlongSnoc(src, order, k);
      if !IsCredentialKey(k) {
        dest := AddValues(dest, k, src[k]);
      }
      order := order + [k];
      rest := rest - {k};
    }
    CloneAlongComplete(src, order);
  }
}
