/** Term frequencies over a corpus, by one process (TFICF_serial.c) and by
    several (TFICF.c): documents are dealt out in turn, the word lists of the
    ranks are merged, and all lines are sorted. */
module Tficf {
  import Division

  type Word = string

  /** obj: a word in a document, how often it occurs, and the document's size. */
  datatype Entry = Entry(word: Word, doc: nat, count: nat, size: nat)

  /** u_w: a word, the number of documents with it, and the last one of these. */
  datatype Unique = Unique(word: Word, ndocs: nat, curr: nat)

  /** What has been read of each document. */
  type Corpus = map<nat, seq<Word>>

  function Occurs(ws: seq<Word>, w: Word): nat {
    if ws == [] then 0 else Occurs(ws[..|ws| - 1], w) + if ws[|ws| - 1] == w then 1 else 0
  }

  lemma OccursIn(ws: seq<Word>, w: Word)
    ensures Occurs(ws, w) > 0 <==> w in ws
  {
    if ws != [] {
      OccursIn(ws[..|ws| - 1], w);
      assert ws == ws[..|ws| - 1] + [ws[|ws| - 1]];
    }
  }

  lemma OccursNext(ws: seq<Word>, x: Word, w: Word)
    ensures Occurs(ws + [x], w) == Occurs(ws, w) + if x == w then 1 else 0
  {
    assert (ws + [x])[..|ws|] == ws;
  }

  ghost function DocsWith(seen: Corpus, w: Word): set<nat> {
    set d | d in seen && w in seen[d]
  }

  // ----- what the two tables hold -----

  ghost predicate EntryOk(e: Entry, seen: Corpus, docs: Corpus) {
    e.doc in seen && e.doc in docs && e.word in seen[e.doc] && e.count == Occurs(seen[e.doc], e.word) && e.size == |docs[e.doc]|
  }

  /** One entry for each word of each document. */
  ghost predicate TableOk(tf: seq<Entry>, seen: Corpus, docs: Corpus) {
    && (forall k :: 0 <= k < |tf| ==> EntryOk(tf[k], seen, docs))
    && (forall j, k :: 0 <= j < k < |tf| ==> tf[j].word != tf[k].word || tf[j].doc != tf[k].doc)
    && (forall d, w :: d in seen && w in seen[d] ==> HasEntry(tf, w, d))
  }

  ghost predicate HasEntry(tf: seq<Entry>, w: Word, d: nat) {
    exists k :: 0 <= k < |tf| && tf[k].word == w && tf[k].doc == d
  }

  /** One element for each word, with the number of documents that have it; the
      last document with a word is `i` if and only if `i` has it. */
  ghost predicate ListOk(uw: seq<Unique>, seen: Corpus, i: nat) {
    && (forall k :: 0 <= k < |uw| ==> UniqueOk(uw[k], seen, i))
    && (forall j, k :: 0 <= j < k < |uw| ==> uw[j].word != uw[k].word)
    && (forall d, w :: d in seen && w in seen[d] ==> Listed(uw, w))
  }

  ghost predicate UniqueOk(u: Unique, seen: Corpus, i: nat) {
    && u.ndocs == |DocsWith(seen, u.word)| && DocsWith(seen, u.word) != {}
    && u.curr in DocsWith(seen, u.word) && (i in DocsWith(seen, u.word) ==> u.curr == i)
  }

  ghost predicate Listed(uw: seq<Unique>, w: Word) {
    exists k :: 0 <= k < |uw| && uw[k].word == w
  }

  // ----- one word of one document -----

  ghost function More(seen: Corpus, i: nat, w: Word): Corpus
    requires i in seen
  {
    seen[i := seen[i] + [w]]
  }

  /** The loop over TFICF for one word. */
  method AddToTable(tf: seq<Entry>, w: Word, i: nat, size: nat, ghost seen: Corpus, ghost docs: Corpus) returns (r: seq<Entry>)
    requires i in seen && i in docs && size == |docs[i]| && TableOk(tf, seen, docs)
    ensures TableOk(r, More(seen, i, w), docs)
  {
    var j := 0;
    while j < |tf| && !(tf[j].word == w && tf[j].doc == i)
      invariant 0 <= j <= |tf| && forall k :: 0 <= k < j ==> !(tf[k].word == w && tf[k].doc == i)
    {
      j := j + 1;
    }
    OccursIn(seen[i], w);
    if j < |tf| {
      r := tf[j := tf[j].(count := tf[j].count + 1)];
      Incremented(tf, j, w, i, seen, docs);
    } else {
      r := tf + [Entry(w, i, 1, size)];
      assert !HasEntry(tf, w, i);
      Appended(tf, w, i, size, seen, docs);
    }
  }

  lemma EntryKept(e: Entry, w: Word, i: nat, seen: Corpus, docs: Corpus)
    requires i in seen && EntryOk(e, seen, docs) && !(e.word == w && e.doc == i)
    ensures EntryOk(e, More(seen, i, w), docs)
  {
    if e.doc == i { OccursNext(seen[i], w, e.word); }
  }

  lemma Incremented(tf: seq<Entry>, j: nat, w: Word, i: nat, seen: Corpus, docs: Corpus)
    requires i in seen && TableOk(tf, seen, docs) && j < |tf| && tf[j].word == w && tf[j].doc == i
    ensures TableOk(tf[j := tf[j].(count := tf[j].count + 1)], More(seen, i, w), docs)
  {
    var r, seen' := tf[j := tf[j].(count := tf[j].count + 1)], More(seen, i, w);
    OccursNext(seen[i], w, w);
    forall k | 0 <= k < |r| ensures EntryOk(r[k], seen', docs) {
      assert EntryOk(tf[k], seen, docs);
      if k != j { EntryKept(tf[k], w, i, seen, docs); }
    }
    forall d, x | d in seen' && x in seen'[d] ensures HasEntry(r, x, d) {
      assert EntryOk(tf[j], seen, docs);
      assert HasEntry(tf, x, d);
      var k :| 0 <= k < |tf| && tf[k].word == x && tf[k].doc == d;
      assert r[k].word == x && r[k].doc == d;
    }
  }

  lemma Appended(tf: seq<Entry>, w: Word, i: nat, size: nat, seen: Corpus, docs: Corpus)
    requires i in seen && i in docs && size == |docs[i]| && TableOk(tf, seen, docs) && !HasEntry(tf, w, i)
    ensures TableOk(tf + [Entry(w, i, 1, size)], More(seen, i, w), docs)
  {
    var e, seen' := Entry(w, i, 1, size), More(seen, i, w);
    var r := tf + [e];
    OccursNext(seen[i], w, w);
    OccursIn(seen[i], w);
    assert w !in seen[i];
    forall k | 0 <= k < |r| ensures EntryOk(r[k], seen', docs) {
      if k < |tf| {
        assert EntryOk(tf[k], seen, docs);
        EntryKept(tf[k], w, i, seen, docs);
      }
    }
    forall d, x | d in seen' && x in seen'[d] ensures HasEntry(r, x, d) {
      if d in seen && x in seen[d] {
        assert HasEntry(tf, x, d);
        var k :| 0 <= k < |tf| && tf[k].word == x && tf[k].doc == d;
        assert r[k] == tf[k];
      } else {
        assert r[|tf|] == e;
      }
    }
  }

  /** The loop over unique_words for one word. */
  method AddToList(uw: seq<Unique>, w: Word, i: nat, ghost seen: Corpus) returns (r: seq<Unique>)
    requires i in seen && ListOk(uw, seen, i)
    ensures ListOk(r, More(seen, i, w), i)
  {
    var j := 0;
    while j < |uw| && uw[j].word != w
      invariant 0 <= j <= |uw| && forall k :: 0 <= k < j ==> uw[k].word != w
    {
      j := j + 1;
    }
    DocsMore(seen, i, w);
    if j < |uw| {
      assert UniqueOk(uw[j], seen, i);
      r := if uw[j].curr != i then uw[j := Unique(w, uw[j].ndocs + 1, i)] else uw;
      ListUpdated(uw, r, j, w, i, seen);
    } else {
      r := uw + [Unique(w, 1, i)];
      assert !Listed(uw, w);
      ListAppended(uw, w, i, seen);
    }
  }

  lemma DocsMore(seen: Corpus, i: nat, w: Word)
    requires i in seen
    ensures DocsWith(More(seen, i, w), w) == DocsWith(seen, w) + {i}
    ensures forall x :: x != w ==> DocsWith(More(seen, i, w), x) == DocsWith(seen, x)
  {
  }

  lemma ListUpdated(uw: seq<Unique>, r: seq<Unique>, j: nat, w: Word, i: nat, seen: Corpus)
    requires i in seen && ListOk(uw, seen, i) && j < |uw| && uw[j].word == w
    requires r == if uw[j].curr != i then uw[j := Unique(w, uw[j].ndocs + 1, i)] else uw
    ensures ListOk(r, More(seen, i, w), i)
  {
    forall k | 0 <= k < |r| ensures UniqueOk(r[k], More(seen, i, w), i) {
      UniqueUpdated(uw[k], r[k], w, i, seen);
    }
    ListedUpdated(uw, r, j, w, i, seen);
  }

  lemma UniqueUpdated(u: Unique, r: Unique, w: Word, i: nat, seen: Corpus)
    requires i in seen && UniqueOk(u, seen, i) && r == if u.word == w && u.curr != i then Unique(w, u.ndocs + 1, i) else u
    ensures UniqueOk(r, More(seen, i, w), i)
  {
    DocsMore(seen, i, w);
    if u.word == w && u.curr == i { assert DocsWith(seen, w) + {i} == DocsWith(seen, w); }
  }

  lemma ListedUpdated(uw: seq<Unique>, r: seq<Unique>, j: nat, w: Word, i: nat, seen: Corpus)
    requires i in seen && ListOk(uw, seen, i) && j < |uw| && uw[j].word == w
    requires |r| == |uw| && forall k :: 0 <= k < |uw| ==> r[k].word == uw[k].word
    ensures forall d, x :: d in More(seen, i, w) && x in More(seen, i, w)[d] ==> Listed(r, x)
  {
    var seen' := More(seen, i, w);
    forall d, x | d in seen' && x in seen'[d] ensures Listed(r, x) {
      assert r[j].word == w;
      if d in seen && x in seen[d] {
        assert Listed(uw, x);
        var k :| 0 <= k < |uw| && uw[k].word == x;
        assert r[k].word == x;
      }
    }
  }

  lemma ListAppended(uw: seq<Unique>, w: Word, i: nat, seen: Corpus)
    requires i in seen && ListOk(uw, seen, i) && !Listed(uw, w)
    ensures ListOk(uw + [Unique(w, 1, i)], More(seen, i, w), i)
  {
    var r, seen' := uw + [Unique(w, 1, i)], More(seen, i, w);
    DocsMore(seen, i, w);
    forall d | d in seen ensures w !in seen[d] {
    }
    assert DocsWith(seen', w) == {i};
    forall k | 0 <= k < |r| ensures UniqueOk(r[k], seen', i) {
      if k < |uw| { assert UniqueOk(uw[k], seen, i); }
    }
    forall d, x | d in seen' && x in seen'[d] ensures Listed(r, x) {
      assert r[|uw|].word == w;
      if d in seen && x in seen[d] {
        assert Listed(uw, x);
        var k :| 0 <= k < |uw| && uw[k].word == x;
        assert r[k] == uw[k];
      }
    }
  }

  // ----- one document, and the documents of one rank -----

  lemma NewDoc(tf: seq<Entry>, uw: seq<Unique>, seen: Corpus, docs: Corpus, i: nat, was: nat)
    requires i !in seen && TableOk(tf, seen, docs) && ListOk(uw, seen, was)
    ensures TableOk(tf, seen[i := []], docs) && ListOk(uw, seen[i := []], i)
  {
    var seen' := seen[i := []];
    forall k | 0 <= k < |tf| ensures EntryOk(tf[k], seen', docs) {
      assert EntryOk(tf[k], seen, docs);
    }
    forall k | 0 <= k < |uw| ensures UniqueOk(uw[k], seen', i) {
      assert UniqueOk(uw[k], seen, was);
      assert DocsWith(seen', uw[k].word) == DocsWith(seen, uw[k].word);
    }
  }

  /** The body of the loop over documents. */
  method ProcessDoc(docs: Corpus, i: nat, tf: seq<Entry>, uw: seq<Unique>, ghost seen: Corpus, ghost was: nat)
    returns (tf': seq<Entry>, uw': seq<Unique>)
    requires i in docs && i !in seen && TableOk(tf, seen, docs) && ListOk(uw, seen, was)
    ensures TableOk(tf', seen[i := docs[i]], docs) && ListOk(uw', seen[i := docs[i]], i)
  {
    var ws := docs[i];
    var docSize := 0;
    while docSize < |ws|
      invariant 0 <= docSize <= |ws|
    {
      docSize := docSize + 1;
    }
    tf', uw' := tf, uw;
    NewDoc(tf, uw, seen, docs, i, was);
    var k := 0;
    ghost var now := seen[i := []];
    while k < |ws|
      invariant 0 <= k <= |ws| && now == seen[i := ws[..k]] && TableOk(tf', now, docs) && ListOk(uw', now, i)
    {
      tf' := AddToTable(tf', ws[k], i, docSize, now, docs);
      uw' := AddToList(uw', ws[k], i, now);
      assert ws[..k + 1] == ws[..k] + [ws[k]];
      now := More(now, i, ws[k]);
      assert now == seen[i := ws[..k + 1]];
      k := k + 1;
    }
    assert ws[..k] == ws;
  }

  /** Document `d` is one of rank, rank + step, ... */
  predicate Turn(d: int, rank: nat, step: nat)
    requires step > 0
  {
    (d - rank) % step == 0
  }

  lemma TurnNext(i: nat, rank: nat, step: nat)
    requires step > 0 && Turn(i, rank, step)
    ensures Turn(i + step, rank, step) && forall d: nat :: i < d < i + step ==> !Turn(d, rank, step)
  {
    var q := (i - rank) / step;
    assert i - rank == q * step;
    Division.Distributes(q, 1, step);
    Division.DivUnique(i + step - rank, q + 1, step, 0);
    forall d: nat | i < d < i + step ensures !Turn(d, rank, step) {
      Division.DivUnique(d - rank, q, step, d - i);
    }
  }

  /** The documents rank, rank + step, ... below `i`. */
  ghost function Share(docs: Corpus, rank: nat, step: nat, i: nat): Corpus
    requires step > 0
  {
    map d | d in docs && rank <= d < i && Turn(d, rank, step) :: docs[d]
  }

  lemma ShareNext(docs: Corpus, rank: nat, step: nat, i: nat)
    requires step > 0 && i in docs && rank <= i && Turn(i, rank, step)
    ensures i !in Share(docs, rank, step, i) && Share(docs, rank, step, i + step) == Share(docs, rank, step, i)[i := docs[i]]
    ensures Turn(i + step, rank, step)
  {
    TurnNext(i, rank, step);
  }

  /** A rank's loop over its documents; with rank and step 1, the serial one. */
  method ReadDocs(docs: Corpus, numDocs: nat, rank: nat, step: nat) returns (tf: seq<Entry>, uw: seq<Unique>, ghost last: nat)
    requires step > 0 && rank > 0 && forall d: nat :: d in docs <==> 1 <= d <= numDocs
    ensures TableOk(tf, Share(docs, rank, step, numDocs + 1), docs) && ListOk(uw, Share(docs, rank, step, numDocs + 1), last)
  {
    tf, uw, last := [], [], 0;
    var i := rank;
    while i <= numDocs
      invariant i >= rank && Turn(i, rank, step)
      invariant TableOk(tf, Share(docs, rank, step, i), docs) && ListOk(uw, Share(docs, rank, step, i), last)
      decreases numDocs + step - i
    {
      ShareNext(docs, rank, step, i);
      tf, uw := ProcessDoc(docs, i, tf, uw, Share(docs, rank, step, i), last);
      last := i;
      i := i + step;
    }
    assert Share(docs, rank, step, i) == Share(docs, rank, step, numDocs + 1);
  }

  // ----- the merge of the word lists -----

  /** The document counts of a word, added up over a list. */
  function Total(l: seq<Unique>, w: Word): nat {
    if l == [] then 0 else Total(l[..|l| - 1], w) + if l[|l| - 1].word == w then l[|l| - 1].ndocs else 0
  }

  ghost predicate Distinct(l: seq<Unique>) {
    forall j, k :: 0 <= j < k < |l| ==> l[j].word != l[k].word
  }

  lemma TotalNext(l: seq<Unique>, u: Unique, w: Word)
    ensures Total(l + [u], w) == Total(l, w) + if u.word == w then u.ndocs else 0
  {
    assert (l + [u])[..|l|] == l;
  }

  lemma {:induction false} TotalAppend(a: seq<Unique>, b: seq<Unique>, w: Word)
    ensures Total(a + b, w) == Total(a, w) + Total(b, w)
  {
    if b == [] {
      assert a + b == a;
    } else {
      var k := |b| - 1;
      assert (a + b)[..|a + b| - 1] == a + b[..k];
      TotalAppend(a, b[..k], w);
    }
  }

  lemma {:induction false} TotalUpdate(l: seq<Unique>, k: nat, n: nat, w: Word)
    requires k < |l|
    ensures Total(l[k := l[k].(ndocs := l[k].ndocs + n)], w) == Total(l, w) + if l[k].word == w then n else 0
  {
    var r := l[k := l[k].(ndocs := l[k].ndocs + n)];
    var last := |l| - 1;
    if k < last {
      TotalUpdate(l[..last], k, n, w);
      assert r[..last] == l[..last][k := l[k].(ndocs := l[k].ndocs + n)];
    } else {
      assert r[..last] == l[..last];
    }
  }

  /** With distinct words the total of a word is the count of its element. */
  lemma {:induction false} TotalOf(l: seq<Unique>, k: nat)
    requires Distinct(l) && k < |l|
    ensures Total(l, l[k].word) == l[k].ndocs
  {
    var last := |l| - 1;
    if k < last {
      TotalOf(l[..last], k);
    } else {
      TotalNone(l[..last], l[last].word);
    }
  }

  lemma {:induction false} TotalNone(l: seq<Unique>, w: Word)
    requires forall k :: 0 <= k < |l| ==> l[k].word != w
    ensures Total(l, w) == 0
  {
    if l != [] { TotalNone(l[..|l| - 1], w); }
  }

  ghost predicate Merged(m: seq<Unique>, l: seq<Unique>) {
    && Distinct(m) && (forall w :: Total(m, w) == Total(l, w))
    && (forall k :: 0 <= k < |l| ==> Listed(m, l[k].word))
  }

  /** One word list received is added to the merged one. */
  method MergeOne(m: seq<Unique>, u: Unique, ghost l: seq<Unique>) returns (r: seq<Unique>)
    requires Merged(m, l)
    ensures Merged(r, l + [u])
  {
    var k := 0;
    while k < |m| && m[k].word != u.word
      invariant 0 <= k <= |m| && forall j :: 0 <= j < k ==> m[j].word != u.word
    {
      k := k + 1;
    }
    if k < |m| {
      r := m[k := m[k].(ndocs := m[k].ndocs + u.ndocs)];
    } else {
      r := m + [u];
    }
    MergedOne(m, k, u, l, r);
  }

  lemma MergedOne(m: seq<Unique>, k: nat, u: Unique, l: seq<Unique>, r: seq<Unique>)
    requires Merged(m, l) && k <= |m| && (forall j :: 0 <= j < k ==> m[j].word != u.word) && (k < |m| ==> m[k].word == u.word)
    requires r == if k < |m| then m[k := m[k].(ndocs := m[k].ndocs + u.ndocs)] else m + [u]
    ensures Merged(r, l + [u])
  {
    forall w ensures Total(r, w) == Total(l + [u], w) {
      TotalNext(l, u, w);
      if k < |m| { TotalUpdate(m, k, u.ndocs, w); } else { TotalNext(m, u, w); }
    }
    StillListed(m, k, u, l, r);
  }

  lemma StillListed(m: seq<Unique>, k: nat, u: Unique, l: seq<Unique>, r: seq<Unique>)
    requires k < |r| && r[k].word == u.word && |m| <= |r| && (forall j :: 0 <= j < |m| ==> r[j].word == m[j].word)
    requires forall i :: 0 <= i < |l| ==> Listed(m, l[i].word)
    ensures forall i :: 0 <= i < |l + [u]| ==> Listed(r, (l + [u])[i].word)
  {
    var l' := l + [u];
    forall i | 0 <= i < |l'| ensures Listed(r, l'[i].word) {
      if i < |l| {
        assert l'[i] == l[i] && Listed(m, l[i].word);
        var j :| 0 <= j < |m| && m[j].word == l[i].word;
        assert r[j].word == l'[i].word;
      }
    }
  }

  function Flat<T>(lists: seq<seq<T>>): seq<T> {
    if lists == [] then [] else Flat(lists[..|lists| - 1]) + lists[|lists| - 1]
  }

  /** The merge at rank 0: the list of rank 1 is copied, the others are added. */
  method Merge(received: seq<Unique>, idx0: nat) returns (m: seq<Unique>)
    requires idx0 <= |received| && Distinct(received[..idx0])
    ensures Merged(m, received)
  {
    m := [];
    var i := 0;
    while i < idx0
      invariant 0 <= i <= idx0 && m == received[..i]
    {
      m := m + [received[i]];
      i := i + 1;
    }
    forall k | 0 <= k < |m| ensures Listed(m, m[k].word) {
    }
    while i < |received|
      invariant idx0 <= i <= |received| && Merged(m, received[..i])
    {
      m := MergeOne(m, received[i], received[..i]);
      assert received[..i + 1] == received[..i] + [received[i]];
      i := i + 1;
    }
    assert received[..i] == received;
  }

  // ----- all ranks together -----

  /** The documents of ranks 1 to `r` of `workers`. */
  ghost function UpTo(docs: Corpus, workers: nat, r: nat): Corpus
    requires workers > 0
  {
    map d | d in docs && d >= 1 && (d - 1) % workers < r :: docs[d]
  }

  /** Each document belongs to one rank. */
  lemma OneRank(d: nat, workers: nat, rank: nat)
    requires 1 <= rank <= workers && d >= 1
    ensures rank <= d && Turn(d, rank, workers) <==> (d - 1) % workers == rank - 1
  {
    var q, m := (d - 1) / workers, (d - 1) % workers;
    assert d - 1 == q * workers + m;
    if m == rank - 1 {
      Division.MulMonotone(0, q, workers);
      Division.DivUnique(d - rank, q, workers, 0);
    } else if rank <= d && Turn(d, rank, workers) {
      var p := (d - rank) / workers;
      assert d - rank == p * workers;
      Division.DivUnique(d - 1, p, workers, rank - 1);
    }
  }

  lemma ShareAdds(docs: Corpus, numDocs: nat, workers: nat, r: nat)
    requires 1 <= r <= workers && forall d: nat :: d in docs <==> 1 <= d <= numDocs
    ensures UpTo(docs, workers, r) == UpTo(docs, workers, r - 1) + Share(docs, r, workers, numDocs + 1)
    ensures UpTo(docs, workers, r - 1).Keys !! Share(docs, r, workers, numDocs + 1).Keys
  {
    forall d: nat | d in docs
      ensures d in Share(docs, r, workers, numDocs + 1) <==> (d - 1) % workers == r - 1
    {
      OneRank(d, workers, r);
    }
  }

  lemma AllRanks(docs: Corpus, workers: nat)
    requires workers > 0 && forall d :: d in docs ==> d >= 1
    ensures UpTo(docs, workers, workers) == docs
  {
  }

  /** Tables of disjoint sets of documents go together. */
  lemma TablesTogether(t: seq<Entry>, a: Corpus, u: seq<Entry>, b: Corpus, docs: Corpus)
    requires TableOk(t, a, docs) && TableOk(u, b, docs) && a.Keys !! b.Keys
    ensures TableOk(t + u, a + b, docs)
  {
    var r, c := t + u, a + b;
    forall k | 0 <= k < |r| ensures EntryOk(r[k], c, docs) {
      assert if k < |t| then EntryOk(t[k], a, docs) else EntryOk(u[k - |t|], b, docs);
    }
    forall j, k | 0 <= j < k < |r| ensures r[j].word != r[k].word || r[j].doc != r[k].doc {
      assert if j < |t| then EntryOk(t[j], a, docs) else EntryOk(u[j - |t|], b, docs);
      assert if k < |t| then EntryOk(t[k], a, docs) else EntryOk(u[k - |t|], b, docs);
    }
    forall d, w | d in c && w in c[d] ensures HasEntry(r, w, d) {
      if d in b {
        assert HasEntry(u, w, d);
        var k :| 0 <= k < |u| && u[k].word == w && u[k].doc == d;
        assert r[|t| + k] == u[k];
      } else {
        assert HasEntry(t, w, d);
        var k :| 0 <= k < |t| && t[k].word == w && t[k].doc == d;
        assert r[k] == t[k];
      }
    }
  }

  /** A rank's list gives for every word the number of its documents with it. */
  lemma TotalIs(uw: seq<Unique>, seen: Corpus, i: nat, w: Word)
    requires ListOk(uw, seen, i)
    ensures Total(uw, w) == |DocsWith(seen, w)|
  {
    if Listed(uw, w) {
      var k :| 0 <= k < |uw| && uw[k].word == w;
      assert UniqueOk(uw[k], seen, i);
      TotalOf(uw, k);
    } else {
      TotalNone(uw, w);
      forall d | d in seen ensures w !in seen[d] {
      }
      assert DocsWith(seen, w) == {};
    }
  }

  lemma DocsTogether(a: Corpus, b: Corpus, w: Word)
    requires a.Keys !! b.Keys
    ensures |DocsWith(a + b, w)| == |DocsWith(a, w)| + |DocsWith(b, w)|
  {
    assert DocsWith(a + b, w) == DocsWith(a, w) + DocsWith(b, w);
    assert DocsWith(a, w) !! DocsWith(b, w);
  }

  /** What rank 0 has received from the first ranks. */
  ghost predicate Received(docs: Corpus, workers: nat, r: nat, tf: seq<Entry>, uw: seq<Unique>)
    requires workers > 0
  {
    && TableOk(tf, UpTo(docs, workers, r), docs)
    && (forall w :: Total(uw, w) == |DocsWith(UpTo(docs, workers, r), w)|)
    && (forall k :: 0 <= k < |tf| ==> Listed(uw, tf[k].word))
  }

  lemma ReceivedNext(docs: Corpus, numDocs: nat, workers: nat, r: nat, tf: seq<Entry>, uw: seq<Unique>, tf1: seq<Entry>, uw1: seq<Unique>, last: nat)
    requires 1 <= r <= workers && (forall d: nat :: d in docs <==> 1 <= d <= numDocs) && Received(docs, workers, r - 1, tf, uw)
    requires TableOk(tf1, Share(docs, r, workers, numDocs + 1), docs) && ListOk(uw1, Share(docs, r, workers, numDocs + 1), last)
    ensures Received(docs, workers, r, tf + tf1, uw + uw1)
  {
    var a, b := UpTo(docs, workers, r - 1), Share(docs, r, workers, numDocs + 1);
    ShareAdds(docs, numDocs, workers, r);
    TablesTogether(tf, a, tf1, b, docs);
    forall w ensures Total(uw + uw1, w) == |DocsWith(UpTo(docs, workers, r), w)| {
      TotalAppend(uw, uw1, w);
      TotalIs(uw1, b, last, w);
      DocsTogether(a, b, w);
    }
    ListedTogether(tf, uw, tf1, uw1, b, docs, last);
  }

  lemma ListedTogether(tf: seq<Entry>, uw: seq<Unique>, tf1: seq<Entry>, uw1: seq<Unique>, b: Corpus, docs: Corpus, last: nat)
    requires (forall k :: 0 <= k < |tf| ==> Listed(uw, tf[k].word)) && TableOk(tf1, b, docs) && ListOk(uw1, b, last)
    ensures forall k :: 0 <= k < |tf + tf1| ==> Listed(uw + uw1, (tf + tf1)[k].word)
  {
    var t, u := tf + tf1, uw + uw1;
    forall k | 0 <= k < |t| ensures Listed(u, t[k].word) {
      if k < |tf| {
        assert Listed(uw, tf[k].word);
        var j :| 0 <= j < |uw| && uw[j].word == tf[k].word;
        assert u[j] == uw[j];
      } else {
        assert EntryOk(tf1[k - |tf|], b, docs);
        assert Listed(uw1, tf1[k - |tf|].word);
        var j :| 0 <= j < |uw1| && uw1[j].word == t[k].word;
        assert u[|uw| + j] == uw1[j];
      }
    }
  }

  // ----- the lines -----

  /** The logarithm of the C library, and what sprintf makes of a document, a word
      and a number. */
  datatype Format = Format(log: real -> real, write: (nat, Word, real) -> string)

  /** How often the word occurs, for the size of the document; one that has a word
      is not empty. */
  function Frequency(count: nat, size: nat): real {
    if size == 0 then 0.0 else count as real / size as real
  }

  /** The value of a word, for its frequency and the ratio of the documents. */
  function TfIcf(fmt: Format, f: real, g: real): real {
    fmt.log(f + 1.0) * fmt.log(g)
  }

  /** The line for an entry, given the numbers of documents in all and with the word. */
  function LineOf(fmt: Format, e: Entry, numDocs: nat, ndocs: nat): string {
    var tf := Frequency(e.count, e.size);
    fmt.write(e.doc, e.word, TfIcf(fmt, tf, (numDocs + 1) as real / (ndocs + 1) as real))
  }

  ghost function Lines(tf: seq<Entry>, docs: Corpus, numDocs: nat, fmt: Format): (r: seq<string>)
    ensures |r| == |tf| && forall k :: 0 <= k < |tf| ==> r[k] == LineOf(fmt, tf[k], numDocs, |DocsWith(docs, tf[k].word)|)
  {
    seq(|tf|, k requires 0 <= k < |tf| => LineOf(fmt, tf[k], numDocs, |DocsWith(docs, tf[k].word)|))
  }

  /** The last loops of a rank: document counts from the merged list, and lines. */
  method MakeLines(tf: seq<Entry>, m: seq<Unique>, numDocs: nat, fmt: Format, ghost docs: Corpus) returns (lines: seq<string>)
    requires Distinct(m) && forall w :: Total(m, w) == |DocsWith(docs, w)|
    requires forall k :: 0 <= k < |tf| ==> Listed(m, tf[k].word)
    ensures lines == Lines(tf, docs, numDocs, fmt)
  {
    lines := [];
    var i := 0;
    while i < |tf|
      invariant 0 <= i == |lines| <= |tf|
      invariant forall k :: 0 <= k < i ==> lines[k] == LineOf(fmt, tf[k], numDocs, |DocsWith(docs, tf[k].word)|)
    {
      var j := 0;
      assert Listed(m, tf[i].word);
      while m[j].word != tf[i].word
        invariant 0 <= j < |m| && forall k :: 0 <= k < j ==> m[k].word != tf[i].word
        decreases |m| - j
      {
        j := j + 1;
      }
      TotalOf(m, j);
      lines := lines + [LineOf(fmt, tf[i], numDocs, m[j].ndocs)];
      i := i + 1;
    }
  }

  /** strcmp(a, b) <= 0. */
  predicate LineLe(a: string, b: string) {
    a == "" || (b != "" && (a[0] < b[0] || (a[0] == b[0] && LineLe(a[1..], b[1..]))))
  }

  /** The first difference decides; a line comes before its continuations. */
  lemma {:induction false} LineLeIs(a: string, b: string)
    ensures LineLe(a, b) <==> a <= b || exists k :: FirstSmaller(a, b, k)
  {
    if a != "" && b != "" {
      var x, y := a[1..], b[1..];
      LineLeIs(x, y);
      assert a == [a[0]] + x && b == [b[0]] + y;
      if a[0] < b[0] { assert FirstSmaller(a, b, 0); }
      if k :| FirstSmaller(a, b, k) && k > 0 { SmallerTail(a, b, k - 1); }
      if k :| FirstSmaller(x, y, k) { SmallerTail(a, b, k); }
    }
  }

  ghost predicate FirstSmaller(a: string, b: string, k: int) {
    0 <= k < |a| && k < |b| && a[..k] == b[..k] && a[k] < b[k]
  }

  lemma SmallerTail(a: string, b: string, k: int)
    requires a != "" && b != "" && k >= 0
    ensures FirstSmaller(a, b, k + 1) <==> a[0] == b[0] && FirstSmaller(a[1..], b[1..], k)
  {
    if k + 1 < |a| && k + 1 < |b| {
      assert a[..k + 1] == [a[0]] + a[1..][..k] && b[..k + 1] == [b[0]] + b[1..][..k];
      assert a[..k + 1][1..] == a[1..][..k] && b[..k + 1][1..] == b[1..][..k];
    }
  }

  lemma {:induction false} LineTotal(a: string, b: string)
    ensures LineLe(a, b) || LineLe(b, a)
    ensures LineLe(a, b) && LineLe(b, a) ==> a == b
  {
    if a != "" && b != "" && a[0] == b[0] {
      LineTotal(a[1..], b[1..]);
      assert a == [a[0]] + a[1..] && b == [b[0]] + b[1..];
    }
  }

  lemma {:induction false} LineTransitive(a: string, b: string, c: string)
    requires LineLe(a, b) && LineLe(b, c)
    ensures LineLe(a, c)
  {
    if a != "" && a[0] == b[0] == c[0] { LineTransitive(a[1..], b[1..], c[1..]); }
  }

  ghost predicate Sorted(s: seq<string>) {
    forall j, k :: 0 <= j < k < |s| ==> LineLe(s[j], s[k])
  }

  /** qsort of the lines, by what it promises. */
  method Sort(lines: seq<string>) returns (r: seq<string>)
    ensures Sorted(r) && multiset(r) == multiset(lines)
  {
    r := [];
    var i := 0;
    while i < |lines|
      invariant 0 <= i <= |lines| && Sorted(r) && multiset(r) == multiset(lines[..i])
    {
      var k := 0;
      while k < |r| && LineLe(r[k], lines[i])
        invariant 0 <= k <= |r| && forall j :: 0 <= j < k ==> LineLe(r[j], lines[i])
      {
        k := k + 1;
      }
      InsertSorted(r, k, lines[i]);
      assert r == r[..k] + r[k..];
      assert lines[..i + 1] == lines[..i] + [lines[i]];
      r := r[..k] + [lines[i]] + r[k..];
      i := i + 1;
    }
    assert lines[..i] == lines;
  }

  lemma InsertSorted(r: seq<string>, k: nat, x: string)
    requires Sorted(r) && k <= |r| && (forall j :: 0 <= j < k ==> LineLe(r[j], x)) && (k < |r| ==> !LineLe(r[k], x))
    ensures Sorted(r[..k] + [x] + r[k..])
  {
    if k < |r| { LineTotal(r[k], x); }
    forall j | k <= j < |r| ensures LineLe(x, r[j]) {
      if j > k { LineTransitive(x, r[k], r[j]); }
    }
    var s := r[..k] + [x] + r[k..];
    assert forall j :: 0 <= j < |s| ==> s[j] == if j < k then r[j] else if j == k then x else r[j - 1];
  }

  lemma WithoutFirst(a: seq<string>)
    requires a != []
    ensures multiset(a[1..]) == multiset(a) - multiset{a[0]}
  {
    assert a == [a[0]] + a[1..];
  }

  lemma LeastFirst(a: seq<string>, b: seq<string>)
    requires Sorted(a) && a != [] && multiset(a) == multiset(b) && b != []
    ensures LineLe(a[0], b[0])
  {
    assert b[0] in multiset(a);
    var k :| 0 <= k < |a| && a[k] == b[0];
    LineTotal(a[0], a[0]);
  }

  /** A sorted sequence is determined by its elements. */
  lemma {:induction false} SortedUnique(a: seq<string>, b: seq<string>)
    requires Sorted(a) && Sorted(b) && multiset(a) == multiset(b)
    ensures a == b
  {
    if a == [] {
      assert |multiset(b)| == |b| == 0;
    } else {
      assert a[0] in multiset(b);
      LeastFirst(a, b);
      LeastFirst(b, a);
      LineTotal(a[0], b[0]);
      WithoutFirst(a);
      WithoutFirst(b);
      SortedUnique(a[1..], b[1..]);
      assert a == [a[0]] + a[1..] && b == [b[0]] + b[1..];
    }
  }

  lemma {:induction false} OnceEach(t: seq<Entry>, e: Entry)
    requires forall j, k :: 0 <= j < k < |t| ==> t[j] != t[k]
    ensures multiset(t)[e] == if e in t then 1 else 0
  {
    if t != [] {
      var k := |t| - 1;
      OnceEach(t[..k], e);
      assert t == t[..k] + [t[k]];
    }
  }

  /** Two complete tables hold the same entries. */
  lemma SameEntries(t: seq<Entry>, u: seq<Entry>, docs: Corpus)
    requires TableOk(t, docs, docs) && TableOk(u, docs, docs)
    ensures multiset(t) == multiset(u)
  {
    forall e ensures multiset(t)[e] == multiset(u)[e] {
      OnceEach(t, e);
      OnceEach(u, e);
      if e in t { EntryInBoth(t, u, docs, e); }
      if e in u { EntryInBoth(u, t, docs, e); }
    }
  }

  lemma EntryInBoth(t: seq<Entry>, u: seq<Entry>, docs: Corpus, e: Entry)
    requires TableOk(t, docs, docs) && TableOk(u, docs, docs) && e in t
    ensures e in u
  {
    assert EntryOk(e, docs, docs);
    assert HasEntry(u, e.word, e.doc);
    var k :| 0 <= k < |u| && u[k].word == e.word && u[k].doc == e.doc;
    assert EntryOk(u[k], docs, docs);
  }

  lemma LinesAppend(a: seq<Entry>, b: seq<Entry>, docs: Corpus, numDocs: nat, fmt: Format)
    ensures Lines(a + b, docs, numDocs, fmt) == Lines(a, docs, numDocs, fmt) + Lines(b, docs, numDocs, fmt)
  {
  }

  lemma TakeOut(s: seq<Entry>, a: seq<Entry>, b: seq<Entry>, x: Entry)
    requires multiset(s + [x]) == multiset(a + [x] + b)
    ensures multiset(s) == multiset(a + b)
  {
    assert multiset(s + [x]) == multiset(s) + multiset{x};
    assert multiset(a + [x] + b) == multiset(a + b) + multiset{x};
    assert multiset(s) == multiset(s + [x]) - multiset{x};
    assert multiset(a + b) == multiset(a + [x] + b) - multiset{x};
  }

  lemma {:induction false} SameLines(t: seq<Entry>, u: seq<Entry>, docs: Corpus, numDocs: nat, fmt: Format)
    requires multiset(t) == multiset(u)
    ensures multiset(Lines(t, docs, numDocs, fmt)) == multiset(Lines(u, docs, numDocs, fmt))
    decreases |t|
  {
    if t == [] {
      assert |u| == |multiset(u)| == 0;
    } else {
      var last := |t| - 1;
      var x := t[last];
      assert x in multiset(u);
      var k :| 0 <= k < |u| && u[k] == x;
      var a, b := u[..k], u[k + 1..];
      assert t == t[..last] + [x] && u == a + [x] + b;
      TakeOut(t[..last], a, b, x);
      SameLines(t[..last], a + b, docs, numDocs, fmt);
      LinesAppend(t[..last], [x], docs, numDocs, fmt);
      LinesAppend(a + [x], b, docs, numDocs, fmt);
      LinesAppend(a, [x], docs, numDocs, fmt);
      LinesAppend(a, b, docs, numDocs, fmt);
      PutBack(Lines(t[..last], docs, numDocs, fmt), Lines(a, docs, numDocs, fmt), Lines(b, docs, numDocs, fmt), Lines([x], docs, numDocs, fmt));
    }
  }

  lemma PutBack(s: seq<string>, a: seq<string>, b: seq<string>, x: seq<string>)
    requires multiset(s) == multiset(a + b)
    ensures multiset(s + x) == multiset(a + x + b)
  {
  }

  // ----- both programs -----

  /** The right output: the lines of a complete table, sorted. */
  ghost predicate IsOutput(docs: Corpus, numDocs: nat, fmt: Format, out: seq<string>) {
    Sorted(out) && exists tf :: TableOk(tf, docs, docs) && multiset(out) == multiset(Lines(tf, docs, numDocs, fmt))
  }

  /** There is only one. */
  lemma OneOutput(docs: Corpus, numDocs: nat, fmt: Format, a: seq<string>, b: seq<string>)
    requires IsOutput(docs, numDocs, fmt, a) && IsOutput(docs, numDocs, fmt, b)
    ensures a == b
  {
    var t :| TableOk(t, docs, docs) && multiset(a) == multiset(Lines(t, docs, numDocs, fmt));
    var u :| TableOk(u, docs, docs) && multiset(b) == multiset(Lines(u, docs, numDocs, fmt));
    SameEntries(t, u, docs);
    SameLines(t, u, docs, numDocs, fmt);
    SortedUnique(a, b);
  }

  /** The pairs of a document and a word of it. */
  ghost function Pairs(docs: Corpus): set<(nat, Word)> {
    set d, w | d in docs && w in docs[d] :: (d, w)
  }

  /** There is a line for each word of each document, which tells document, word
      and the product of the two logarithms; and there are no others. */
  lemma OutputIs(docs: Corpus, numDocs: nat, fmt: Format, out: seq<string>)
    requires IsOutput(docs, numDocs, fmt, out)
    ensures |out| == |Pairs(docs)|
    ensures forall d, w :: d in docs && w in docs[d] ==> exists s :: s in out && Tells(docs, numDocs, fmt, d, w, s)
  {
    var t: seq<Entry> :| TableOk(t, docs, docs) && multiset(out) == multiset(Lines(t, docs, numDocs, fmt));
    var lines := Lines(t, docs, numDocs, fmt);
    assert |out| == |multiset(out)| == |lines|;
    PairsOfTable(t, docs);
    PairsCount(t);
    forall d, w | d in docs && w in docs[d] ensures exists s :: s in out && Tells(docs, numDocs, fmt, d, w, s) {
      var s := LineIs(t, docs, numDocs, fmt, d, w);
      assert s in multiset(out);
    }
  }

  /** The line is the one of this word of this document: how often it occurs there,
      how long the document is, and how many documents have it. */
  ghost predicate Tells(docs: Corpus, numDocs: nat, fmt: Format, d: nat, w: Word, s: string)
    requires d in docs && w in docs[d]
  {
    var f, g := Occurs(docs[d], w) as real / |docs[d]| as real, (numDocs + 1) as real / (|DocsWith(docs, w)| + 1) as real;
    Prints(fmt, d, w, f, g, s)
  }

  ghost predicate Prints(fmt: Format, d: nat, w: Word, f: real, g: real, s: string) {
    exists x :: x == fmt.log(f + 1.0) * fmt.log(g) && s == fmt.write(d, w, x)
  }

  lemma LineIsPrinted(fmt: Format, e: Entry, numDocs: nat, ndocs: nat)
    requires e.size > 0
    ensures Prints(fmt, e.doc, e.word, e.count as real / e.size as real, (numDocs + 1) as real / (ndocs + 1) as real,
      LineOf(fmt, e, numDocs, ndocs))
  {
    var f, g := e.count as real / e.size as real, (numDocs + 1) as real / (ndocs + 1) as real;
    assert Frequency(e.count, e.size) == f;
    var x := TfIcf(fmt, f, g);
    assert x == fmt.log(f + 1.0) * fmt.log(g);
    assert LineOf(fmt, e, numDocs, ndocs) == fmt.write(e.doc, e.word, x);
  }

  lemma LineIs(t: seq<Entry>, docs: Corpus, numDocs: nat, fmt: Format, d: nat, w: Word) returns (s: string)
    requires TableOk(t, docs, docs) && d in docs && w in docs[d]
    ensures s in multiset(Lines(t, docs, numDocs, fmt)) && Tells(docs, numDocs, fmt, d, w, s)
  {
    assert HasEntry(t, w, d);
    var k :| 0 <= k < |t| && t[k].word == w && t[k].doc == d;
    assert EntryOk(t[k], docs, docs);
    LineIsPrinted(fmt, t[k], numDocs, |DocsWith(docs, w)|);
    s := LineOf(fmt, t[k], numDocs, |DocsWith(docs, w)|);
    assert Lines(t, docs, numDocs, fmt)[k] == s;
  }

  ghost function PairsIn(t: seq<Entry>): set<(nat, Word)> {
    set k | 0 <= k < |t| :: (t[k].doc, t[k].word)
  }

  lemma PairsOfTable(t: seq<Entry>, docs: Corpus)
    requires TableOk(t, docs, docs)
    ensures PairsIn(t) == Pairs(docs)
  {
    forall d, w | d in docs && w in docs[d] ensures (d, w) in PairsIn(t) {
      assert HasEntry(t, w, d);
    }
    forall k | 0 <= k < |t| ensures (t[k].doc, t[k].word) in Pairs(docs) {
      assert EntryOk(t[k], docs, docs);
    }
  }

  lemma {:induction false} PairsCount(t: seq<Entry>)
    requires forall j, k :: 0 <= j < k < |t| ==> t[j].word != t[k].word || t[j].doc != t[k].doc
    ensures |PairsIn(t)| == |t|
  {
    if t != [] {
      var last := |t| - 1;
      PairsCount(t[..last]);
      assert PairsIn(t) == PairsIn(t[..last]) + {(t[last].doc, t[last].word)};
      assert (t[last].doc, t[last].word) !in PairsIn(t[..last]);
    } else {
      assert PairsIn(t) == {};
    }
  }

  ghost predicate Numbered(docs: Corpus, numDocs: nat) {
    forall d: nat :: d in docs <==> 1 <= d <= numDocs
  }

  /** TFICF_serial.c. */
  method Serial(docs: Corpus, numDocs: nat, fmt: Format) returns (out: seq<string>)
    requires Numbered(docs, numDocs)
    ensures IsOutput(docs, numDocs, fmt, out)
  {
    var tf, uw; ghost var last;
    tf, uw, last := ReadDocs(docs, numDocs, 1, 1);
    assert Share(docs, 1, 1, numDocs + 1) == docs;
    forall w ensures Total(uw, w) == |DocsWith(docs, w)| {
      TotalIs(uw, docs, last, w);
    }
    forall k | 0 <= k < |tf| ensures Listed(uw, tf[k].word) {
      assert EntryOk(tf[k], docs, docs);
    }
    var lines := MakeLines(tf, uw, numDocs, fmt, docs);
    out := Sort(lines);
  }

  /** TFICF.c: `numproc` - 1 workers read the documents, rank 0 merges what they
      send, in the order of ranks, and sorts their lines. */
  method Distributed(docs: Corpus, numDocs: nat, numproc: nat, fmt: Format) returns (out: seq<string>)
    requires Numbered(docs, numDocs) && numproc >= 2
    ensures IsOutput(docs, numDocs, fmt, out)
  {
    var workers := numproc - 1;
    var tfs, idx0;
    var received;
    tfs, received, idx0 := Gather(docs, numDocs, workers);
    var m := Merge(received, idx0);
    AllRanks(docs, workers);
    forall k | 0 <= k < |Flat(tfs)| ensures Listed(m, Flat(tfs)[k].word) {
      assert Listed(received, Flat(tfs)[k].word);
      var j :| 0 <= j < |received| && received[j].word == Flat(tfs)[k].word;
    }
    var strings := AllLines(tfs, m, numDocs, fmt, docs);
    out := Sort(strings);
  }

  /** Each worker makes the lines of its own entries. */
  method AllLines(tfs: seq<seq<Entry>>, m: seq<Unique>, numDocs: nat, fmt: Format, ghost docs: Corpus) returns (strings: seq<string>)
    requires forall k :: 0 <= k < |Flat(tfs)| ==> Listed(m, Flat(tfs)[k].word)
    requires Distinct(m) && forall w :: Total(m, w) == |DocsWith(docs, w)|
    ensures strings == Lines(Flat(tfs), docs, numDocs, fmt)
  {
    strings := [];
    var r := 0;
    while r < |tfs|
      invariant 0 <= r <= |tfs| && strings == Lines(Flat(tfs[..r]), docs, numDocs, fmt)
    {
      FlatPart(tfs, r);
      var lines := MakeLines(tfs[r], m, numDocs, fmt, docs);
      assert tfs[..r + 1][..r] == tfs[..r];
      LinesAppend(Flat(tfs[..r]), tfs[r], docs, numDocs, fmt);
      strings := strings + lines;
      r := r + 1;
    }
    assert tfs[..r] == tfs;
  }

  /** The elements of one part are among those of the whole. */
  lemma {:induction false} FlatPart<T>(lists: seq<seq<T>>, r: nat)
    requires r < |lists|
    ensures forall k :: 0 <= k < |lists[r]| ==> lists[r][k] in Flat(lists)
    decreases |lists|
  {
    var last := |lists| - 1;
    if r < last {
      FlatPart(lists[..last], r);
    }
  }

  /** What the workers compute and rank 0 receives. */
  method Gather(docs: Corpus, numDocs: nat, workers: nat) returns (tfs: seq<seq<Entry>>, received: seq<Unique>, idx0: nat)
    requires Numbered(docs, numDocs) && workers >= 1
    ensures |tfs| == workers && Received(docs, workers, workers, Flat(tfs), received)
    ensures idx0 <= |received| && Distinct(received[..idx0])
  {
    tfs, received, idx0 := [], [], 0;
    var r := 1;
    while r <= workers
      invariant 1 <= r <= workers + 1 && |tfs| == r - 1 && Received(docs, workers, r - 1, Flat(tfs), received)
      invariant idx0 <= |received| && Distinct(received[..idx0]) && (r == 1 ==> received == [])
    {
      var tf, uw; ghost var last;
      tf, uw, last := ReadDocs(docs, numDocs, r, workers);
      ReceivedNext(docs, numDocs, workers, r, Flat(tfs), received, tf, uw, last);
      assert (tfs + [tf])[..|tfs|] == tfs;
      tfs := tfs + [tf];
      if r == 1 {
        idx0 := |uw|;
        assert ([] + uw)[..idx0] == uw;
      } else {
        assert (received + uw)[..idx0] == received[..idx0];
      }
      received := received + uw;
      r := r + 1;
    }
  }
}
