/**
 * Merging two processed books by line number into one ordered dictionary,
 * and adding up the two books' totals of every merged line.
 */
module Merge {
  import opened Wrappers
  import opened Numerals
  import opened Totals
  import opened Books

  /**
   * One merged line, `merged_dict[key]`: the records of the books that have
   * the line, and once computed, `total_summed_amount` in cents.
   */
  datatype Entry = Entry(key: string, books: map<string, Record>, total: Option<int>)

  /** The ordered dictionary, as its entries in insertion order. */
  type Merged = seq<Entry>

  function Keys(m: Merged): (r: seq<string>)
    ensures |r| == |m| && forall i :: 0 <= i < |m| ==> r[i] == m[i].key
  {
    seq(|m|, i requires 0 <= i < |m| => m[i].key)
  }

  /** Position of the first occurrence of `k` in `ks`. */
  function IndexOf(ks: seq<string>, k: string): (r: Option<nat>)
    ensures r.None? <==> k !in ks
    ensures r.Some? ==> r.value < |ks| && ks[r.value] == k && forall j :: 0 <= j < r.value ==> ks[j] != k
  {
    if |ks| == 0 then None
    else if ks[0] == k then Some(0)
    else match IndexOf(ks[1..], k)
      case Some(i) => Some(i + 1)
      case None => None
  }

  /** In a sequence without repetitions, the first occurrence of its i-th element is at i. */
  lemma IndexOfDistinct(ks: seq<string>, i: nat)
    requires i < |ks| && Distinct(ks)
    ensures IndexOf(ks, ks[i]) == Some(i)
  {
  }

  predicate Distinct(ks: seq<string>) {
    forall i, j :: 0 <= i < j < |ks| ==> ks[i] != ks[j]
  }

  /** `merged_dict[key][book] = record`, opening a new entry at the end when the line is new. */
  function Put(m: Merged, key: string, book: string, record: Record): Merged
  {
    match IndexOf(Keys(m), key)
    case Some(i) => m[i := m[i].(books := m[i].books[book := record])]
    case None => m + [Entry(key, map[book := record], None)]
  }

  /** One of the two loops of `merge_books_by_line`: every line of one book, in order. */
  function MergeInto(m: Merged, l: seq<Keyed>, book: string): Merged
    decreases |l|
  {
    if |l| == 0 then m
    else Put(MergeInto(m, l[..|l| - 1], book), l[|l| - 1].key, book, l[|l| - 1].record)
  }

  /**
   * `merge_books_by_line` (also `merge_books_by_line_number` and the legacy
   * `merge_books_by_key`): the first book's lines, then the second's.
   */
  function MergeBooks(l1: seq<Keyed>, l2: seq<Keyed>, book1: string, book2: string): Merged
  {
    MergeInto(MergeInto([], l1, book1), l2, book2)
  }

  // ---------------------------------------------------------------------
  // Key order

  /** Appends `k` unless it is already there. */
  function AddKey(ks: seq<string>, k: string): seq<string> {
    if k in ks then ks else ks + [k]
  }

  /** The elements of `s` appended to `acc`, each new one at its first occurrence. */
  function DedupOnto(acc: seq<string>, s: seq<string>): seq<string>
    decreases |s|
  {
    if |s| == 0 then acc else AddKey(DedupOnto(acc, s[..|s| - 1]), s[|s| - 1])
  }

  /** `s` without repetitions, each element at its first occurrence. */
  function Dedup(s: seq<string>): seq<string> {
    DedupOnto([], s)
  }

  /**
   * Deduplicating keeps what was there first, adds exactly the new elements,
   * and never repeats one.
   */
  lemma {:induction false} DedupOntoSpec(acc: seq<string>, s: seq<string>)
    requires Distinct(acc)
    ensures Distinct(DedupOnto(acc, s))
    ensures |DedupOnto(acc, s)| >= |acc| && DedupOnto(acc, s)[..|acc|] == acc
    ensures forall x :: x in DedupOnto(acc, s) <==> x in acc || x in s
    decreases |s|
  {
    if |s| > 0 {
      var init := s[..|s| - 1];
      DedupOntoSpec(acc, init);
      assert forall x :: x in s <==> x in init || x == s[|s| - 1];
      var d := DedupOnto(acc, init);
      if s[|s| - 1] !in d {
        assert (d + [s[|s| - 1]])[..|acc|] == d[..|acc|];
      }
    }
  }

  /** Adding elements that are all there already changes nothing. */
  lemma {:induction false} DedupOntoPresent(acc: seq<string>, s: seq<string>)
    requires forall x :: x in s ==> x in acc
    ensures DedupOnto(acc, s) == acc
    decreases |s|
  {
    if |s| > 0 {
      DedupOntoPresent(acc, s[..|s| - 1]);
    }
  }

  /** A sequence without repetitions is its own deduplication. */
  lemma {:induction false} DedupDistinct(s: seq<string>)
    requires Distinct(s)
    ensures Dedup(s) == s
    decreases |s|
  {
    if |s| > 0 {
      var init := s[..|s| - 1];
      DedupDistinct(init);
      assert s[|s| - 1] !in init;
      assert init + [s[|s| - 1]] == s;
    }
  }

  /** Deduplicating `a + b` is deduplicating `a` and then adding `b`. */
  lemma {:induction false} DedupOntoAppend(acc: seq<string>, a: seq<string>, b: seq<string>)
    ensures DedupOnto(DedupOnto(acc, a), b) == DedupOnto(acc, a + b)
    decreases |b|
  {
    if |b| == 0 {
      assert a + b == a;
    } else {
      assert (a + b)[..|a + b| - 1] == a + b[..|b| - 1];
      DedupOntoAppend(acc, a, b[..|b| - 1]);
    }
  }

  lemma PutKeys(m: Merged, key: string, book: string, record: Record)
    ensures Keys(Put(m, key, book, record)) == AddKey(Keys(m), key)
  {
    var r := Put(m, key, book, record);
    if key in Keys(m) {
      assert Keys(r) == Keys(m);
    } else {
      assert Keys(r) == Keys(m) + [key];
    }
  }

  /** Merging one book into `m` adds that book's keys as `DedupOnto` does. */
  lemma {:induction false} MergeIntoKeys(m: Merged, l: seq<Keyed>, book: string)
    ensures Keys(MergeInto(m, l, book)) == DedupOnto(Keys(m), KeysOf(l))
    decreases |l|
  {
    if |l| > 0 {
      var init := l[..|l| - 1];
      MergeIntoKeys(m, init, book);
      assert KeysOf(l)[..|l| - 1] == KeysOf(init);
      PutKeys(MergeInto(m, init, book), l[|l| - 1].key, book, l[|l| - 1].record);
    }
  }

  /**
   * The merged line order is the first book's line keys, then the second
   * book's keys the first did not have, each once, in their own order.
   */
  lemma MergeKeyOrder(l1: seq<Keyed>, l2: seq<Keyed>, book1: string, book2: string)
    ensures Keys(MergeBooks(l1, l2, book1, book2)) == Dedup(KeysOf(l1) + KeysOf(l2))
    ensures Distinct(Keys(MergeBooks(l1, l2, book1, book2)))
    ensures Dedup(KeysOf(l1)) <= Keys(MergeBooks(l1, l2, book1, book2))
    ensures forall k :: k in Keys(MergeBooks(l1, l2, book1, book2)) <==> k in KeysOf(l1) || k in KeysOf(l2)
  {
    var m1 := MergeInto([], l1, book1);
    assert Keys([]) == [];
    MergeIntoKeys([], l1, book1);
    MergeIntoKeys(m1, l2, book2);
    DedupOntoAppend([], KeysOf(l1), KeysOf(l2));
    DedupOntoSpec([], KeysOf(l1));
    DedupOntoSpec(Dedup(KeysOf(l1)), KeysOf(l2));
  }

  // ---------------------------------------------------------------------
  // Which books a merged line holds

  /** `merged_dict.get(key, {})`: the books recorded under a line key. */
  function BooksAt(m: Merged, key: string): map<string, Record> {
    match IndexOf(Keys(m), key)
    case Some(i) => m[i].books
    case None => map[]
  }

  /** The record of the last line with key `k`, which is the one a dictionary keeps. */
  function LastRecord(l: seq<Keyed>, k: string): (r: Option<Record>)
    ensures r.Some? <==> k in KeysOf(l)
    decreases |l|
  {
    if |l| == 0 then None
    else if l[|l| - 1].key == k then Some(l[|l| - 1].record)
    else
      assert KeysOf(l) == KeysOf(l[..|l| - 1]) + [l[|l| - 1].key];
      LastRecord(l[..|l| - 1], k)
  }

  /** Records `rec` under `book` when there is one. */
  function Update(books: map<string, Record>, book: string, rec: Option<Record>): map<string, Record> {
    match rec
    case Some(r) => books[book := r]
    case None => books
  }

  lemma IndexOfAppend(ks: seq<string>, k: string, j: string)
    requires j != k
    ensures IndexOf(ks + [k], j) == IndexOf(ks, j)
  {
    if j in ks {
      var i := IndexOf(ks, j).value;
      assert (ks + [k])[i] == j;
    }
  }

  lemma PutBooks(m: Merged, key: string, book: string, record: Record, k: string)
    ensures BooksAt(Put(m, key, book, record), k)
         == if k == key then BooksAt(m, k)[book := record] else BooksAt(m, k)
  {
    var r := Put(m, key, book, record);
    PutKeys(m, key, book, record);
    if key !in Keys(m) {
      if k != key {
        IndexOfAppend(Keys(m), key, k);
      } else {
        assert IndexOf(Keys(r), k) == Some(|m|);
      }
    }
  }

  /** Merging one book sets that book, under each key it has, to the key's last record. */
  lemma {:induction false} MergeIntoBooks(m: Merged, l: seq<Keyed>, book: string, k: string)
    ensures BooksAt(MergeInto(m, l, book), k) == Update(BooksAt(m, k), book, LastRecord(l, k))
    decreases |l|
  {
    if |l| > 0 {
      var init := l[..|l| - 1];
      MergeIntoBooks(m, init, book, k);
      PutBooks(MergeInto(m, init, book), l[|l| - 1].key, book, l[|l| - 1].record, k);
      if l[|l| - 1].key == k {
        var before := Update(BooksAt(m, k), book, LastRecord(init, k));
        assert before[book := l[|l| - 1].record] == BooksAt(m, k)[book := l[|l| - 1].record];
      }
    }
  }

  /**
   * A merged line holds the first book exactly when that book has the line,
   * and the second book exactly when it has it; each with its record for
   * that line. The second book overwrites the first if both keys coincide.
   */
  lemma MergedBooks(l1: seq<Keyed>, l2: seq<Keyed>, book1: string, book2: string, k: string)
    ensures BooksAt(MergeBooks(l1, l2, book1, book2), k)
         == Update(Update(map[], book1, LastRecord(l1, k)), book2, LastRecord(l2, k))
    ensures book1 != book2 ==> (book1 in BooksAt(MergeBooks(l1, l2, book1, book2), k) <==> k in KeysOf(l1))
    ensures book1 != book2 ==> (book2 in BooksAt(MergeBooks(l1, l2, book1, book2), k) <==> k in KeysOf(l2))
  {
    assert BooksAt([], k) == map[];
    MergeIntoBooks([], l1, book1, k);
    MergeIntoBooks(MergeInto([], l1, book1), l2, book2, k);
    UpdatePresence(Update(map[], book1, LastRecord(l1, k)), book2, LastRecord(l2, k));
    UpdatePresence(map[], book1, LastRecord(l1, k));
  }

  lemma UpdatePresence(books: map<string, Record>, book: string, rec: Option<Record>)
    ensures book in Update(books, book, rec) <==> book in books || rec.Some?
    ensures forall b :: b != book ==> (b in Update(books, book, rec) <==> b in books)
  {
  }

  // ---------------------------------------------------------------------
  // Positional merge of two files read in full

  /** Line keys "1", "2", ... as a processed file has them. */
  predicate Numbered(l: seq<Keyed>) {
    forall i :: 0 <= i < |l| ==> l[i].key == NatToString(i + 1)
  }

  lemma NatToStringInjective(a: nat, b: nat)
    requires NatToString(a) == NatToString(b)
    ensures a == b
  {
    NatToStringDigits(a);
    NatToStringDigits(b);
  }

  lemma NumberedDistinct(l: seq<Keyed>)
    requires Numbered(l)
    ensures Distinct(KeysOf(l))
  {
    forall i, j | 0 <= i < j < |l|
      ensures l[i].key != l[j].key
    {
      if l[i].key == l[j].key {
        NatToStringInjective(i + 1, j + 1);
      }
    }
  }

  lemma NumberedLast(l: seq<Keyed>, i: nat)
    requires Numbered(l) && i < |l|
    ensures LastRecord(l, l[i].key) == Some(l[i].record)
  {
    NumberedDistinct(l);
    LastAtDistinct(l, i);
  }

  lemma {:induction false} LastAtDistinct(l: seq<Keyed>, i: nat)
    requires Distinct(KeysOf(l)) && i < |l|
    ensures LastRecord(l, l[i].key) == Some(l[i].record)
    decreases |l|
  {
    if i < |l| - 1 {
      var init := l[..|l| - 1];
      assert KeysOf(init) == KeysOf(l)[..|l| - 1];
      assert KeysOf(l)[i] != KeysOf(l)[|l| - 1];
      LastAtDistinct(init, i);
    }
  }

  /** Entries the merge opens carry no total yet. */
  predicate NoTotals(m: Merged) {
    forall i :: 0 <= i < |m| ==> m[i].total.None?
  }

  lemma {:induction false} MergeIntoNoTotals(m: Merged, l: seq<Keyed>, book: string)
    requires NoTotals(m)
    ensures NoTotals(MergeInto(m, l, book))
    decreases |l|
  {
    if |l| > 0 {
      MergeIntoNoTotals(m, l[..|l| - 1], book);
    }
  }

  /**
   * Two files of the same length, both read in full, merge position by
   * position: merged line i is line i + 1 of both books.
   */
  lemma PositionalMerge(l1: seq<Keyed>, l2: seq<Keyed>, book1: string, book2: string)
    requires Numbered(l1) && Numbered(l2) && |l1| == |l2| && book1 != book2
    ensures var m := MergeBooks(l1, l2, book1, book2);
            && |m| == |l1|
            && forall i :: 0 <= i < |m| ==>
                 m[i] == Entry(NatToString(i + 1), map[book1 := l1[i].record, book2 := l2[i].record], None)
  {
    var m := MergeBooks(l1, l2, book1, book2);
    var ks := KeysOf(l1);
    assert KeysOf(l2) == ks;
    NumberedDistinct(l1);
    MergeKeyOrder(l1, l2, book1, book2);
    DedupOntoAppend([], ks, ks);
    DedupDistinct(ks);
    DedupOntoPresent(ks, ks);
    assert Keys(m) == ks;
    MergeIntoNoTotals([], l1, book1);
    MergeIntoNoTotals(MergeInto([], l1, book1), l2, book2);
    forall i | 0 <= i < |m|
      ensures m[i] == Entry(NatToString(i + 1), map[book1 := l1[i].record, book2 := l2[i].record], None)
    {
      IndexOfDistinct(ks, i);
      MergedBooks(l1, l2, book1, book2, ks[i]);
      NumberedLast(l1, i);
      NumberedLast(l2, i);
      assert m[i].books == BooksAt(m, ks[i]);
    }
  }

  // ---------------------------------------------------------------------
  // Line totals

  /**
   * `value[book].get("summed_amounts", {}).get("total", 0)` when the line has
   * the book, and 0 when it does not.
   */
  function BookTotal(e: Entry, book: string): int {
    if book in e.books then
      match e.books[book].summary
      case Some(s) => s.total
      case None => 0
    else 0
  }

  /**
   * `append_total_sums` (also `add_total_summed_amounts`, current and
   * legacy): every line gets the sum of its two books' totals; nothing else
   * changes.
   */
  function AppendTotalSums(m: Merged, book1: string, book2: string): (r: Merged)
    ensures |r| == |m| && Keys(r) == Keys(m)
    ensures forall i :: 0 <= i < |m| ==> r[i].key == m[i].key && r[i].books == m[i].books
    ensures forall i :: 0 <= i < |m| ==> r[i].total == Some(BookTotal(m[i], book1) + BookTotal(m[i], book2))
  {
    seq(|m|, i requires 0 <= i < |m| => m[i].(total := Some(BookTotal(m[i], book1) + BookTotal(m[i], book2))))
  }

  /** Adding the totals a second time gives the same dictionary. */
  lemma AppendTotalSumsIdempotent(m: Merged, book1: string, book2: string)
    ensures AppendTotalSums(AppendTotalSums(m, book1, book2), book1, book2) == AppendTotalSums(m, book1, book2)
  {
    var once := AppendTotalSums(m, book1, book2);
    var twice := AppendTotalSums(once, book1, book2);
    forall i | 0 <= i < |m|
      ensures twice[i] == once[i]
    {
      assert BookTotal(once[i], book1) == BookTotal(m[i], book1);
      assert BookTotal(once[i], book2) == BookTotal(m[i], book2);
    }
  }

  /** `merge_and_summarize`: merging, then adding the totals. */
  function MergeAndSummarize(l1: seq<Keyed>, l2: seq<Keyed>, book1: string, book2: string): (r: Merged)
    ensures Keys(r) == Dedup(KeysOf(l1) + KeysOf(l2))
  {
    MergeKeyOrder(l1, l2, book1, book2);
    AppendTotalSums(MergeBooks(l1, l2, book1, book2), book1, book2)
  }

  /** The total of a line's record, as the merge adds it up. */
  function RecordTotal(r: Record): int {
    match r.summary
    case Some(s) => s.total
    case None => 0
  }

  /**
   * Two files of the same length, both read in full: merged line i holds
   * line i + 1 of each book and the sum of their two totals.
   */
  lemma PositionalSummary(l1: seq<Keyed>, l2: seq<Keyed>, book1: string, book2: string)
    requires Numbered(l1) && Numbered(l2) && |l1| == |l2| && book1 != book2
    ensures var m := MergeAndSummarize(l1, l2, book1, book2);
            && |m| == |l1|
            && forall i :: 0 <= i < |m| ==>
                 m[i] == Entry(NatToString(i + 1), map[book1 := l1[i].record, book2 := l2[i].record],
                               Some(RecordTotal(l1[i].record) + RecordTotal(l2[i].record)))
  {
    PositionalMerge(l1, l2, book1, book2);
  }
}
