/** Which models share signatures, and what a lookup answers, said of model names and times. */
module SignatureCacheFamilies {
  import opened SignatureCacheModel

  predicate Mentions(model: string, word: string) {
    exists i :: 0 <= i <= |model| && word <= model[i..]
  }

  predicate Gpt(model: string) {
    Mentions(model, "gpt")
  }

  predicate Claude(model: string) {
    Mentions(model, "claude") && !Mentions(model, "gpt")
  }

  predicate Gemini(model: string) {
    Mentions(model, "gemini") && !Mentions(model, "gpt") && !Mentions(model, "claude")
  }

  /** The same name, or names of one family. */
  predicate Related(a: string, b: string) {
    a == b || (Gpt(a) && Gpt(b)) || (Claude(a) && Claude(b)) || (Gemini(a) && Gemini(b))
  }

  /** What a lookup that finds nothing answers. */
  function Nothing(model: string): string {
    if Gemini(model) then "skip_thought_signature_validator" else ""
  }

  lemma MentionsIs(model: string, word: string)
    requires word != ""
    ensures Contains(model, word) <==> Mentions(model, word)
  {
    if i: nat :| i + |word| <= |model| && ContainsAt(model, word, i) {
      assert model[i..][..|word|] == model[i..i + |word|];
      assert word <= model[i..];
    }
    if i :| 0 <= i <= |model| && word <= model[i..] {
      assert model[i..i + |word|] == model[i..][..|word|] == word;
      assert ContainsAt(model, word, i);
    }
  }

  lemma WithoutLetter(model: string, word: string, k: nat)
    requires k < |word| && word[k] !in model
    ensures !Mentions(model, word)
  {
    forall i | 0 <= i <= |model| ensures !(word <= model[i..]) {
      assert i + k < |model| ==> model[i..][k] == model[i + k];
    }
  }

  /** No family's name mentions an earlier family's. */
  lemma OwnWords()
    ensures Gpt("gpt") && Claude("claude") && Gemini("gemini")
  {
    assert "gpt"[0..] == "gpt" && "claude"[0..] == "claude" && "gemini"[0..] == "gemini";
    WithoutLetter("claude", "gpt", 0);
    WithoutLetter("gemini", "gpt", 1);
    WithoutLetter("gemini", "claude", 0);
  }

  lemma GroupIs(model: string)
    ensures ModelGroup(model) ==
      if Gpt(model) then "gpt" else if Claude(model) then "claude" else if Gemini(model) then "gemini" else model
    ensures Missing(ModelGroup(model)) == Nothing(model)
  {
    MentionsIs(model, "gpt");
    MentionsIs(model, "claude");
    MentionsIs(model, "gemini");
    OwnWords();
  }

  lemma SameGroupIff(a: string, b: string)
    ensures ModelGroup(a) == ModelGroup(b) <==> Related(a, b)
  {
    GroupIs(a);
    GroupIs(b);
    OwnWords();
  }

  // ----- what lookups answer -----

  function Answer(hash: string -> string, s: State, model: string, text: string, now: int): string {
    Step(hash, s, Event(now, Get(model, text))).1
  }

  /** A lookup that finds nothing: in an empty cache, or without a text. */
  lemma NothingFound(hash: string -> string, s: State, model: string, text: string, now: int)
    requires s == map[] || text == ""
    ensures Answer(hash, s, model, text, now) == Nothing(model)
  {
    GroupIs(model);
  }

  /** A lookup after a store: a related model gets the signature of the text for three hours and
      nothing from then on; any other lookup answers as it would have without the store, and so
      does every lookup when the text is empty or the signature shorter than fifty characters. */
  lemma LookupAfterStore(hash: string -> string, s: State, at: int, a: string, text: string, signature: string,
                         b: string, other: string, now: int)
    ensures var t := Step(hash, s, Event(at, Store(a, text, signature))).0;
      Answer(hash, t, b, other, now) ==
        if text != "" && |signature| >= 50 && Related(a, b) && other != "" && hash(other) == hash(text) then
          if now - at <= 3 * 60 * 60 * 1_000_000_000 then signature else Nothing(b)
        else Answer(hash, s, b, other, now)
  {
    GroupIs(b);
    SameGroupIff(a, b);
  }

  /** A hit extends the three hours. */
  lemma LookupExtends(hash: string -> string, s: State, at: int, a: string, text: string, signature: string,
                      b: string, first: int, c: string, second: int)
    requires text != "" && |signature| >= 50 && Related(a, b) && Related(a, c)
    requires first - at <= 3 * 60 * 60 * 1_000_000_000
    ensures var t := Step(hash, s, Event(at, Store(a, text, signature))).0;
      var u := Step(hash, t, Event(first, Get(b, text))).0;
      Answer(hash, u, c, text, second) ==
        if second - first <= 3 * 60 * 60 * 1_000_000_000 then signature else Nothing(c)
  {
    GroupIs(c);
    SameGroupIff(a, b);
    SameGroupIff(a, c);
  }

  /** A lookup changes no lookup's answer for another text or another family. */
  lemma LookupLeavesOthers(hash: string -> string, s: State, at: int, a: string, text: string, b: string, other: string,
                           now: int)
    requires !Related(a, b) || hash(other) != hash(text) || other == ""
    ensures Answer(hash, Step(hash, s, Event(at, Get(a, text))).0, b, other, now) == Answer(hash, s, b, other, now)
  {
    SameGroupIff(a, b);
    ReadLeavesOthers(s, ModelGroup(a), hash(text), at, ModelGroup(b), hash(other), now);
  }

  lemma ReadLeavesOthers(s: State, g: string, h: string, at: int, other: string, key: string, now: int)
    ensures g != other || h != key ==> Read(Read(s, g, h, at).0, other, key, now).1 == Read(s, other, key, now).1
  {
  }

  /** A clear for one model empties what related models share, one for no model everything, and
      neither touches the rest. */
  lemma LookupAfterClear(hash: string -> string, s: State, at: int, a: string, b: string, text: string, now: int)
    ensures var t := Step(hash, s, Event(at, Clear(a))).0;
      Answer(hash, t, b, text, now) ==
        if a == "" || Related(a, b) then Nothing(b) else Answer(hash, s, b, text, now)
  {
    GroupIs(b);
    SameGroupIff(a, b);
  }

  /** Which signatures are accepted: long ones, and the sentinel for models of the Gemini family. */
  lemma ValidIff(model: string, signature: string)
    ensures HasValidSignature(model, signature) <==>
      |signature| >= 50 || (signature == "skip_thought_signature_validator" && Gemini(model))
  {
    GroupIs(model);
    OwnWords();
  }
}
