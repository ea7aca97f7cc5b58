/** `=key=value` words: how Go writes them, and how each side collects them into a map. */
module Attributes {
  import opened WireFormat

  const EQ: byte := 0x3d  // '='

  type Attrs = map<Bytes, Bytes>

  /** The index of the first '=', or the length when there is none. */
  function FirstEq(s: Bytes): (i: nat)
    ensures i <= |s| && EQ !in s[..i]
    ensures i < |s| ==> s[i] == EQ
  {
    if s == [] || s[0] == EQ then 0 else
      var i := 1 + FirstEq(s[1..]);
      assert s[..i] == [s[0]] + s[1..][..i - 1];
      i
  }

  /** One word into a Go row: a word without a second '=' gives its key an empty value. */
  function GoPut(row: Attrs, word: Bytes): Attrs {
    if word == [] || word[0] != EQ then row else
      var rest := word[1..];
      var i := FirstEq(rest);
      if i == |rest| then row[rest := []] else row[rest[..i] := rest[i + 1..]]
  }

  /** One word into a TypeScript record: without a second '=', or with an empty key, it is skipped. */
  function TsPut(attrs: Attrs, word: Bytes): Attrs {
    if word == [] || word[0] != EQ then attrs else
      var rest := word[1..];
      var i := FirstEq(rest);
      if 0 < i < |rest| then attrs[rest[..i] := rest[i + 1..]] else attrs
  }

  function Put(d: Dialect, attrs: Attrs, word: Bytes): Attrs {
    if d.Ts? then TsPut(attrs, word) else GoPut(attrs, word)
  }

  /** All words, the later ones overriding the earlier. */
  function Collect(d: Dialect, words: Sentence): Attrs {
    if words == [] then map[] else Put(d, Collect(d, words[..|words| - 1]), words[|words| - 1])
  }

  /** The row loop of `Execute`, over the words behind the tag. */
  method ParseRow(sentence: Sentence) returns (row: Attrs)
    requires sentence != []
    ensures row == Collect(Go, sentence[1..])
  {
    row := map[];
    var words := sentence[1..];
    for k := 0 to |words|
      invariant row == Collect(Go, words[..k])
    {
      assert words[..k + 1][..k] == words[..k];
      var word := words[k];
      if |word| == 0 || word[0] != EQ { continue; }
      var rest := word[1..];
      var i := FirstEq(rest);
      if i == |rest| {
        row := row[rest := []];
      } else {
        row := row[rest[..i] := rest[i + 1..]];
      }
    }
    assert words[..|words|] == words;
  }

  /** `wordsToAttrs`: over all words, the tag included. */
  method WordsToAttrs(words: Sentence) returns (attrs: Attrs)
    ensures attrs == Collect(Ts, words)
  {
    attrs := map[];
    for k := 0 to |words|
      invariant attrs == Collect(Ts, words[..k])
    {
      assert words[..k + 1][..k] == words[..k];
      var word := words[k];
      if |word| > 0 && word[0] == EQ {
        var eqIdx := 1 + FirstEq(word[1..]);
        if 1 < eqIdx < |word| {
          assert word[1..][..eqIdx - 1] == word[1..eqIdx] && word[1..][eqIdx..] == word[eqIdx + 1..];
          attrs := attrs[word[1..eqIdx] := word[eqIdx + 1..]];
        }
      }
    }
    assert words[..|words|] == words;
  }

  // ---------- Writing a map and reading it back ----------

  function AttrWord(key: Bytes, value: Bytes): Bytes {
    [EQ] + key + [EQ] + value
  }

  /** `order` is one way a Go map iteration can go through `params`. */
  ghost predicate Enumerates(order: seq<Bytes>, params: Attrs) {
    && (forall k :: k in order <==> k in params)
    && (forall i, j :: 0 <= i < j < |order| ==> order[i] != order[j])
  }

  function AttrWords(order: seq<Bytes>, params: Attrs): (words: Sentence)
    requires forall k :: k in order ==> k in params
    ensures |words| == |order|
  {
    if order == [] then [] else
      var n := |order| - 1;
      AttrWords(order[..n], params) + [AttrWord(order[n], params[order[n]])]
  }

  /** Keys that survive: no '=' in them and, in TypeScript, not empty. */
  ghost predicate PlainKey(d: Dialect, key: Bytes) {
    EQ !in key && (d.Ts? ==> key != [])
  }

  lemma PutPlain(d: Dialect, attrs: Attrs, key: Bytes, value: Bytes)
    requires PlainKey(d, key)
    ensures Put(d, attrs, AttrWord(key, value)) == attrs[key := value]
  {
    var rest := AttrWord(key, value)[1..];
    assert rest == key + [EQ] + value;
    FirstEqBehind(key, value);
    assert rest[..|key|] == key && rest[|key| + 1..] == value;
  }

  lemma {:induction false} FirstEqBehind(key: Bytes, value: Bytes)
    requires EQ !in key
    ensures FirstEq(key + [EQ] + value) == |key|
  {
    if key != [] {
      assert (key + [EQ] + value)[1..] == key[1..] + [EQ] + value;
      FirstEqBehind(key[1..], value);
    }
  }

  /** A collected key never contains '=', and is never empty in TypeScript. */
  lemma {:induction false} CollectedKeysPlain(d: Dialect, words: Sentence)
    ensures forall k :: k in Collect(d, words) ==> PlainKey(d, k)
  {
    if words != [] {
      var n := |words| - 1;
      CollectedKeysPlain(d, words[..n]);
      var rest := if words[n] == [] then [] else words[n][1..];
      if FirstEq(rest) == |rest| {
        assert rest[..|rest|] == rest;
      }
    }
  }

  lemma {:induction false} CollectOrdered(d: Dialect, order: seq<Bytes>, params: Attrs)
    requires forall k :: k in order ==> k in params && PlainKey(d, k)
    ensures Collect(d, AttrWords(order, params)) == map k | k in order :: params[k]
  {
    hide Put, AttrWord;
    if order != [] {
      var n := |order| - 1;
      CollectOrdered(d, order[..n], params);
      PutPlain(d, Collect(d, AttrWords(order[..n], params)), order[n], params[order[n]]);
      assert AttrWords(order, params)[..n] == AttrWords(order[..n], params);
      RestrictSnoc(order[..n], order[n], params);
      assert order == order[..n] + [order[n]];
    }
  }

  lemma RestrictSnoc(order: seq<Bytes>, key: Bytes, params: Attrs)
    requires forall k :: k in order + [key] ==> k in params
    ensures forall k :: k in order ==> k in order + [key]
    ensures (map k | k in order :: params[k])[key := params[key]] == map k | k in order + [key] :: params[k]
  {
    assert forall k :: k in order + [key] <==> k in order || k == key;
  }

  /** A map written in any order reads back exactly when all its keys survive. */
  lemma AttrsRoundTrip(d: Dialect, order: seq<Bytes>, params: Attrs)
    requires Enumerates(order, params)
    ensures Collect(d, AttrWords(order, params)) == params <==> forall k :: k in params ==> PlainKey(d, k)
  {
    CollectedKeysPlain(d, AttrWords(order, params));
    if forall k :: k in params ==> PlainKey(d, k) {
      CollectOrdered(d, order, params);
    }
  }

  // ---------- What a collected map says ----------

  /** The word assigns `value` to `key`; in Go a word without a second '=' assigns the empty value. */
  predicate Gives(d: Dialect, word: Bytes, key: Bytes, value: Bytes) {
    && EQ !in key && (d.Ts? ==> key != [])
    && (word == [EQ] + key + [EQ] + value || (d.Go? && word == [EQ] + key && value == []))
  }

  ghost predicate GivesKey(d: Dialect, word: Bytes, key: Bytes) {
    exists value :: Gives(d, word, key, value)
  }

  /** Index `i` is the last word to assign `key`. */
  ghost predicate LastGiver(d: Dialect, words: Sentence, key: Bytes, i: nat) {
    i < |words| && GivesKey(d, words[i], key) && forall j :: i < j < |words| ==> !GivesKey(d, words[j], key)
  }

  /** A word with a second '=' assigns to just one key. */
  lemma GivesOnly(d: Dialect, word: Bytes, key: Bytes, value: Bytes)
    requires Gives(d, word, key, value)
    ensures |word| > 0 && word[0] == EQ && (d.Ts? ==> key != [])
    ensures FirstEq(word[1..]) == |key| && word[1..][..|key|] == key
    ensures value == if |key| == |word| - 1 then [] else word[1..][|key| + 1..]
    ensures |key| == |word| - 1 ==> d.Go?
  {
    if word == AttrWord(key, value) {
      assert word[1..] == key + [EQ] + value;
      FirstEqBehind(key, value);
      assert (key + [EQ] + value)[..|key|] == key && (key + [EQ] + value)[|key| + 1..] == value;
    } else {
      assert word[1..] == key;
      NoEq(key);
    }
  }

  lemma {:induction false} NoEq(s: Bytes)
    requires EQ !in s
    ensures FirstEq(s) == |s|
  {
    if s != [] { NoEq(s[1..]); }
  }

  /** The word `Put` acts on, taken apart. */
  lemma PutGives(d: Dialect, word: Bytes)
    requires word != [] && word[0] == EQ
    ensures var rest := word[1..];
            var i := FirstEq(rest);
            && (i == |rest| && d.Go? ==> Gives(d, word, rest, []))
            && (i < |rest| && (d.Ts? ==> i > 0) ==> Gives(d, word, rest[..i], rest[i + 1..]))
  {
    var rest := word[1..];
    var i := FirstEq(rest);
    assert word == [EQ] + rest;
    if i == |rest| {
      assert rest[..i] == rest;
    } else {
      assert rest == rest[..i] + [EQ] + rest[i + 1..];
      assert word == AttrWord(rest[..i], rest[i + 1..]);
    }
  }

  lemma PutMeans(d: Dialect, attrs: Attrs, word: Bytes, key: Bytes)
    ensures var after := Put(d, attrs, word);
            && (GivesKey(d, word, key) ==> key in after && Gives(d, word, key, after[key]))
            && (!GivesKey(d, word, key) ==>
                  (key in after <==> key in attrs) && (key in attrs ==> after[key] == attrs[key]))
  {
    hide Gives, AttrWord;
    if GivesKey(d, word, key) {
      var value :| Gives(d, word, key, value);
      GivesOnly(d, word, key, value);
      var rest := word[1..];
      assert |key| == |rest| ==> rest[..|key|] == rest;
      assert key in Put(d, attrs, word) && Put(d, attrs, word)[key] == value;
    } else if word != [] && word[0] == EQ {
      PutGives(d, word);
    }
  }

  /** Only keys that some word assigns are there, and all of them. */
  lemma {:induction false} CollectedKeys(d: Dialect, words: Sentence, key: Bytes)
    ensures key in Collect(d, words) <==> exists i :: 0 <= i < |words| && GivesKey(d, words[i], key)
  {
    if words != [] {
      hide Put, GivesKey;
      var n := |words| - 1;
      CollectedKeys(d, words[..n], key);
      PutMeans(d, Collect(d, words[..n]), words[n], key);
      assert forall i :: 0 <= i < n ==> words[..n][i] == words[i];
    }
  }

  /**
   Each key has the value of the last word that assigns it: with `CollectedKeys`, the meaning of both
   loops, without reference to how they search for '='.
   */
  lemma {:induction false} CollectMeans(d: Dialect, words: Sentence, key: Bytes, i: nat)
    requires LastGiver(d, words, key, i)
    ensures key in Collect(d, words) && Gives(d, words[i], key, Collect(d, words)[key])
  {
    hide Put, Gives, GivesKey;
    var n := |words| - 1;
    PutMeans(d, Collect(d, words[..n]), words[n], key);
    if i < n {
      assert forall j :: 0 <= j < n ==> words[..n][j] == words[j];
      CollectMeans(d, words[..n], key, i);
    }
  }

  /** A word that is no attribute, in front, changes nothing. */
  lemma {:induction false} CollectSkipsHead(d: Dialect, head: Bytes, words: Sentence)
    requires head == [] || head[0] != EQ
    ensures Collect(d, [head] + words) == Collect(d, words)
    decreases |words|
  {
    if words == [] {
      assert ([head] + words)[..0] == [];
    } else {
      var n := |words| - 1;
      CollectSkipsHead(d, head, words[..n]);
      assert ([head] + words)[..n + 1] == [head] + words[..n];
    }
  }
}
