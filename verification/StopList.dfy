/** StopList: the copy-on-write set of blocked queries. */
module StopList {
  import opened Normalizers
  import opened Orders
  import opened Text

  /** Non-empty normal forms only: each entry is the key it is looked up by. */
  ghost predicate NormalSet(lower: Lower, words: set<string>) {
    forall w :: w in words ==> w != "" && StopCanon(lower, w) == w
  }

  /** The abstract set after an update. */
  function AfterAdd(lower: Lower, words: set<string>, word: string): set<string> {
    var key := StopCanon(lower, word);
    if key == "" then words else words + {key}
  }

  function AfterRemove(lower: Lower, words: set<string>, word: string): set<string> {
    words - {StopCanon(lower, word)}
  }

  lemma {:induction false} StopCanonIdempotent(lower: Lower, word: string)
    ensures StopCanon(lower, StopCanon(lower, word)) == StopCanon(lower, word)
  {
    StopCanonOfCanon(lower, StripControls(word));
  }

  lemma {:induction false} UpdatesKeepNormal(lower: Lower, words: set<string>, word: string)
    requires NormalSet(lower, words)
    ensures NormalSet(lower, AfterAdd(lower, words, word))
    ensures NormalSet(lower, AfterRemove(lower, words, word))
  {
    hide StopCanon;
    StopCanonIdempotent(lower, word);
  }

  /** An applied addition is undone by removing any spelling of the same word, also its normal form. */
  lemma {:induction false} AddThenRemove(lower: Lower, words: set<string>, word: string, spelling: string)
    requires NormalSet(lower, words)
    requires StopCanon(lower, spelling) == StopCanon(lower, word)
    ensures StopCanon(lower, word) !in words ==>
              AfterRemove(lower, AfterAdd(lower, words, word), spelling) == words
    ensures AfterRemove(lower, AfterAdd(lower, words, word), StopCanon(lower, word))
            == words - {StopCanon(lower, word)}
  {
    StopCanonIdempotent(lower, word);
  }

  /** Every listed word is found and removed under the spelling it is listed with, and stays found
      until it is removed. */
  lemma {:induction false} ListedIsRemovable(lower: Lower, words: set<string>, w: string, other: string)
    requires NormalSet(lower, words) && w in words
    ensures StopCanon(lower, w) in words && AfterRemove(lower, words, w) == words - {w}
    ensures w in AfterAdd(lower, words, other)
    ensures w in AfterRemove(lower, words, other) <==> StopCanon(lower, other) != w
  {
    assert StopCanon(lower, w) == w;
  }

  /** A map used as a set. It is filled before it is published and never written again. */
  class WordSet {
    var words: set<string>

    constructor ()
      ensures words == {}
    {
      words := {};
    }

    method Insert(word: string)
      modifies this
      ensures words == old(words) + {word}
    {
      words := words + {word};
    }

    method Delete(word: string)
      modifies this
      ensures words == old(words) - {word}
    {
      words := words - {word};
    }
  }

  method CloneSet(source: WordSet) returns (clone: WordSet)
    ensures fresh(clone) && clone.words == source.words
  {
    clone := new WordSet();
    var remaining := source.words;
    while remaining != {}
      invariant fresh(clone)
      invariant clone.words + remaining == source.words
      decreases |remaining|
    {
      var word :| word in remaining;
      clone.Insert(word);
      remaining := remaining - {word};
    }
  }

  /** The non-empty normal forms of a list of words. */
  function NormalForms(lower: Lower, words: seq<string>): set<string> {
    set i | 0 <= i < |words| && StopCanon(lower, words[i]) != "" :: StopCanon(lower, words[i])
  }

  lemma {:induction false} NormalFormsAppend(lower: Lower, words: seq<string>, word: string)
    ensures NormalForms(lower, words + [word]) == AfterAdd(lower, NormalForms(lower, words), word)
  {
    var all, key := words + [word], StopCanon(lower, word);
    assert all[|words|] == word;
    forall w | w in NormalForms(lower, all) ensures w in AfterAdd(lower, NormalForms(lower, words), word) {
      var i :| 0 <= i < |all| && StopCanon(lower, all[i]) == w != "";
      assert i < |words| ==> all[i] == words[i];
    }
    forall w | w in NormalForms(lower, words) ensures w in NormalForms(lower, all) {
      var i :| 0 <= i < |words| && StopCanon(lower, words[i]) == w != "";
      assert all[i] == words[i];
    }
  }

  lemma {:induction false} NormalFormsAreNormal(lower: Lower, words: seq<string>)
    ensures NormalSet(lower, NormalForms(lower, words))
  {
    forall w | w in NormalForms(lower, words) ensures w != "" && StopCanon(lower, w) == w {
      var i :| 0 <= i < |words| && StopCanon(lower, words[i]) == w != "";
      StopCanonIdempotent(lower, words[i]);
    }
  }

  method BuildSet(lower: Lower, words: seq<string>) returns (s: WordSet)
    ensures fresh(s) && s.words == NormalForms(lower, words)
  {
    s := new WordSet();
    for k := 0 to |words|
      invariant fresh(s)
      invariant s.words == NormalForms(lower, words[..k])
    {
      assert words[..k + 1] == words[..k] + [words[k]];
      NormalFormsAppend(lower, words[..k], words[k]);
      var normalized := StopNormalize(lower, words[k]);
      if normalized != "" {
        s.Insert(normalized);
      }
    }
    assert words[..|words|] == words;
  }

  class Manager {
    const lower: Lower

    /** The published snapshot, an atomic pointer; nothing is published at first. */
    var published: WordSet?

    ghost function Words(): set<string>
      reads this, published
    {
      if published == null then {} else published.words
    }

    ghost predicate Valid()
      reads this, published
    {
      NormalSet(lower, Words())
    }

    constructor (lower: Lower, initial: seq<string>)
      ensures Valid() && this.lower == lower
      ensures Words() == NormalForms(lower, initial)
      ensures forall i :: 0 <= i < |initial| && StopCanon(lower, initial[i]) != "" ==>
                StopCanon(lower, initial[i]) in Words()
      ensures forall w :: w in Words() ==>
                w != "" && exists i :: 0 <= i < |initial| && StopCanon(lower, initial[i]) == w
      ensures published != null && fresh(published)
    {
      this.lower := lower;
      var s := BuildSet(lower, initial);
      published := s;
      new;
      NormalFormsAreNormal(lower, initial);
    }

    method Load() returns (s: WordSet)
      ensures s.words == Words()
      ensures published != null ==> s == published
    {
      if published != null {
        return published;
      }
      s := new WordSet();
    }

    /** Is any spelling of this text blocked? */
    method Contains(word: string) returns (blocked: bool)
      ensures blocked <==> StopCanon(lower, word) in Words()
    {
      var current := Load();
      var key := StopNormalize(lower, word);
      blocked := key in current.words;
    }

    /** Publishes a new snapshot; only the pointer changes, so a reader's snapshot never does. */
    method Add(word: string) returns (applied: bool)
      requires Valid()
      modifies this
      ensures Valid()
      ensures Words() == AfterAdd(lower, old(Words()), word)
      ensures forall w :: w in Words() <==> w in old(Words()) || (w != "" && w == StopCanon(lower, word))
      ensures applied <==> StopCanon(lower, word) != "" && StopCanon(lower, word) !in old(Words())
      ensures if applied then published != null && fresh(published) else published == old(published)
    {
      hide StopCanon;
      UpdatesKeepNormal(lower, Words(), word);
      var key := StopNormalize(lower, word);
      if key == "" {
        return false;
      }
      var current := Load();
      if key in current.words {
        assert Words() + {key} == Words();
        return false;
      }
      var next := CloneSet(current);
      next.Insert(key);
      published := next;
      return true;
    }

    method Remove(word: string) returns (applied: bool)
      requires Valid()
      modifies this
      ensures Valid()
      ensures Words() == AfterRemove(lower, old(Words()), word)
      ensures forall w :: w in Words() <==> w in old(Words()) && w != StopCanon(lower, word)
      ensures applied <==> StopCanon(lower, word) in old(Words())
      ensures if applied then published != null && fresh(published) else published == old(published)
    {
      hide StopCanon;
      UpdatesKeepNormal(lower, Words(), word);
      var key := StopNormalize(lower, word);
      if key == "" {
        return false;
      }
      var current := Load();
      if key !in current.words {
        return false;
      }
      var next := CloneSet(current);
      next.Delete(key);
      published := next;
      return true;
    }

    /** The blocked words, each once, in ascending order. */
    method List() returns (words: seq<string>)
      ensures forall w :: w in words <==> w in Words()
      ensures forall i, j :: 0 <= i < j < |words| ==> Precedes(words[i], words[j])
    {
      hide StopCanon;
      var current := Load();
      var unsorted: seq<string> := [];
      var remaining := current.words;
      while remaining != {}
        invariant remaining <= current.words
        invariant forall w :: multiset(unsorted)[w] == if w in current.words - remaining then 1 else 0
        decreases |remaining|
      {
        var word :| word in remaining;
        unsorted := unsorted + [word];
        remaining := remaining - {word};
      }
      LexIsStrictTotalOrder();
      words := Sort(unsorted, LexLess);
      forall w ensures w in words <==> w in Words() {
        assert w in words <==> multiset(words)[w] > 0;
      }
      forall i, j | 0 <= i < j < |words| ensures Precedes(words[i], words[j]) {
        NoDuplicatesMeansDistinct(words, i, j);
        LexLessIff(words[i], words[j]);
      }
    }
  }
}
