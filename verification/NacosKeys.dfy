/** How the Nacos provider turns configuration keys into data IDs, and which keys share a register. */
module NacosKeys {
  function TrimSlash(key: string): string {
    if "/" <= key then key[1..] else key
  }

  function Dotted(key: string): string {
    if key == [] then [] else [if key[0] == '/' then '.' else key[0]] + Dotted(key[1..])
  }

  /** What `GetConfig`, `PutConfig` and `WatchConfig` all make of a key. */
  function DataId(key: string): string {
    Dotted(TrimSlash(key))
  }

  /** A first slash is dropped, every other one becomes a dot, and the rest stays. */
  lemma {:induction false} DataIdText(key: string)
    ensures
      var start := if key != "" && key[0] == '/' then 1 else 0;
      && |DataId(key)| == |key| - start
      && forall i | 0 <= i < |key| - start :: DataId(key)[i] == if key[start + i] == '/' then '.' else key[start + i]
  {
    DottedText(TrimSlash(key));
  }

  lemma {:induction false} DottedText(key: string)
    ensures |Dotted(key)| == |key|
    ensures forall i | 0 <= i < |key| :: Dotted(key)[i] == if key[i] == '/' then '.' else key[i]
  {
    if key != "" {
      DottedText(key[1..]);
    }
  }

  predicate IsSeparator(c: char) {
    c == '/' || c == '.'
  }

  /** The same text, a slash being as good as a dot. */
  predicate SameButForSeparators(a: string, b: string) {
    |a| == |b| && forall i | 0 <= i < |a| :: a[i] == b[i] || (IsSeparator(a[i]) && IsSeparator(b[i]))
  }

  lemma {:induction false} DottedMatchesIff(a: string, b: string)
    ensures Dotted(a) == Dotted(b) <==> SameButForSeparators(a, b)
  {
    if a != [] && b != [] {
      DottedMatchesIff(a[1..], b[1..]);
      assert Dotted(a)[0] == Dotted(b)[0] <==> a[0] == b[0] || (IsSeparator(a[0]) && IsSeparator(b[0]));
      assert Dotted(a)[1..] == Dotted(a[1..]) && Dotted(b)[1..] == Dotted(b[1..]);
      assert SameButForSeparators(a, b) ==> SameButForSeparators(a[1..], b[1..]) by {
        if SameButForSeparators(a, b) {
          assert forall i | 0 <= i < |a| - 1 :: a[1..][i] == a[i + 1] && b[1..][i] == b[i + 1];
        }
      }
      if SameButForSeparators(a[1..], b[1..]) && (a[0] == b[0] || (IsSeparator(a[0]) && IsSeparator(b[0]))) {
        assert forall i | 0 < i < |a| :: a[i] == a[1..][i - 1] && b[i] == b[1..][i - 1];
      }
    }
  }

  /** Two keys share a data ID exactly when they differ in separators, or a first slash, alone. */
  lemma KeysCollideIff(k: string, l: string)
    ensures DataId(k) == DataId(l) <==> SameButForSeparators(TrimSlash(k), TrimSlash(l))
  {
    DottedMatchesIff(TrimSlash(k), TrimSlash(l));
  }

  predicate Usual(key: string) {
    "/" <= key && '.' !in key
  }

  /** Keys that start with a slash and have no dot each have a register of their own. */
  lemma UsualKeysAreSeparate(k: string, l: string)
    requires Usual(k) && Usual(l) && DataId(k) == DataId(l)
    ensures k == l
  {
    KeysCollideIff(k, l);
    var a, b := TrimSlash(k), TrimSlash(l);
    forall i | 0 <= i < |a|
      ensures a[i] == b[i]
    {
      assert a[i] == k[i + 1] && b[i] == l[i + 1];
      assert k[i + 1] in k && l[i + 1] in l;
    }
    assert k == "/" + a && l == "/" + b;
  }
}
