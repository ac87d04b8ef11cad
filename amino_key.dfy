/** The letter/index table `aa_key` of the sequence search and its inverse
    `get_AA`, which turns a decoder's argmax index back into a letter
    (CLI/search.py:26-28). */
module AminoKey {
  import opened Results

  /** One key/value pair of the dictionary. */
  datatype Entry = Entry(letter: char, index: nat)

  /** A Python dictionary from letters to indices, in insertion order. */
  type Table = seq<Entry>

  /** `d[l] = i`: overwrite the value of an existing key in place, or append a
      new key at the end. */
  function Put(t: Table, l: char, i: nat): (r: Table)
    ensures |t| <= |r| <= |t| + 1
  {
    if t == [] then [Entry(l, i)]
    else if t[0].letter == l then [Entry(l, i)] + t[1..]
    else [t[0]] + Put(t[1..], l, i)
  }

  /** `{l: i for i, l in enumerate(letters)}`. */
  function AaKey(letters: string): (t: Table)
    ensures |t| <= |letters|
  {
    if letters == [] then []
    else Put(AaKey(letters[..|letters| - 1]), letters[|letters| - 1], |letters| - 1)
  }

  /** `aa_key[l]`; None where Python raises KeyError. */
  function Lookup(t: Table, l: char): (r: Option<nat>)
    ensures r.None? <==> !HasLetter(t, l)
    ensures r.Some? ==> Entry(l, r.value) in t
  {
    if t == [] then None
    else if t[0].letter == l then Some(t[0].index)
    else Lookup(t[1..], l)
  }

  /** `list(aa_key.keys())[list(aa_key.values()).index(n)]`: the key of the first
      entry whose value is `n`; None where `index` raises ValueError. */
  function GetAA(t: Table, n: int): (r: Option<char>)
    ensures r.None? <==> forall p :: 0 <= p < |t| ==> t[p].index != n
    ensures r.Some? ==> Entry(r.value, n) in t
  {
    if t == [] then None
    else if t[0].index == n then Some(t[0].letter)
    else GetAA(t[1..], n)
  }

  ghost predicate HasLetter(t: Table, l: char)
  {
    exists p :: 0 <= p < |t| && t[p].letter == l
  }

  /** A dictionary built from the first `n` letters: keys are distinct, and so
      are the values, which are all below `n`. */
  ghost predicate WellFormed(t: Table, n: nat)
  {
    (forall p, q :: 0 <= p < q < |t| ==> t[p].letter != t[q].letter && t[p].index != t[q].index) &&
    (forall p :: 0 <= p < |t| ==> t[p].index < n)
  }

  ghost predicate Distinct(s: string)
  {
    forall i, j :: 0 <= i < j < |s| ==> s[i] != s[j]
  }

  /** Putting a key that is present replaces its first entry where it stands. */
  lemma {:induction false} PutReplaces(t: Table, l: char, i: nat, p: nat)
    requires p < |t| && t[p].letter == l
    requires forall q :: 0 <= q < p ==> t[q].letter != l
    ensures Put(t, l, i) == t[p := Entry(l, i)]
  {
    if p > 0 {
      assert t[0].letter != l;
      PutReplaces(t[1..], l, i, p - 1);
      assert [t[0]] + t[1..][p - 1 := Entry(l, i)] == t[p := Entry(l, i)];
    }
  }

  /** Putting an absent key appends it. */
  lemma {:induction false} PutAppends(t: Table, l: char, i: nat)
    requires !HasLetter(t, l)
    ensures Put(t, l, i) == t + [Entry(l, i)]
  {
    if t != [] {
      assert t[0].letter != l;
      assert !HasLetter(t[1..], l) by {
        forall p | 0 <= p < |t[1..]| ensures t[1..][p].letter != l {
          assert t[p + 1].letter != l;
        }
      }
      PutAppends(t[1..], l, i);
      assert [t[0]] + (t[1..] + [Entry(l, i)]) == t + [Entry(l, i)];
    }
  }

  /** After `d[l] = i`, `d[l]` is `i`. */
  lemma {:induction false} PutSetsKey(t: Table, l: char, i: nat)
    ensures Lookup(Put(t, l, i), l) == Some(i)
  {
    if t != [] && t[0].letter != l {
      PutSetsKey(t[1..], l, i);
    }
  }

  /** `d[l] = i` leaves the value of every other key as it was. */
  lemma {:induction false} PutKeepsOtherKeys(t: Table, l: char, i: nat, m: char)
    requires m != l
    ensures Lookup(Put(t, l, i), m) == Lookup(t, m)
  {
    if t != [] && t[0].letter != l {
      PutKeepsOtherKeys(t[1..], l, i, m);
    }
  }

  /** In a table with distinct keys, a present key sits at one position. */
  lemma PutShape(t: Table, l: char, i: nat, n: nat)
    requires WellFormed(t, n)
    ensures HasLetter(t, l) ==> exists p :: 0 <= p < |t| && t[p].letter == l && Put(t, l, i) == t[p := Entry(l, i)]
    ensures !HasLetter(t, l) ==> Put(t, l, i) == t + [Entry(l, i)]
  {
    if HasLetter(t, l) {
      var p :| 0 <= p < |t| && t[p].letter == l;
      PutReplaces(t, l, i, p);
    } else {
      PutAppends(t, l, i);
    }
  }

  /** Adding the next letter keeps the dictionary well formed, and keeps every
      key it had. */
  lemma PutWellFormed(t: Table, l: char, n: nat)
    requires WellFormed(t, n)
    ensures WellFormed(Put(t, l, n), n + 1)
    ensures forall m :: HasLetter(Put(t, l, n), m) <==> HasLetter(t, m) || m == l
  {
    PutShape(t, l, n, n);
    var t' := Put(t, l, n);
    if HasLetter(t, l) {
      var p :| 0 <= p < |t| && t[p].letter == l && t' == t[p := Entry(l, n)];
      assert t'[p].letter == l;
      forall m ensures HasLetter(t', m) <==> HasLetter(t, m) || m == l {
        if HasLetter(t, m) {
          var r :| 0 <= r < |t| && t[r].letter == m;
          assert t'[r].letter == m;
        }
        if HasLetter(t', m) {
          var r :| 0 <= r < |t'| && t'[r].letter == m;
          assert r != p ==> t[r].letter == m;
        }
      }
    } else {
      assert t'[|t|].letter == l;
      forall m ensures HasLetter(t', m) <==> HasLetter(t, m) || m == l {
        if HasLetter(t, m) {
          var r :| 0 <= r < |t| && t[r].letter == m;
          assert t'[r].letter == m;
        }
        if HasLetter(t', m) {
          var r :| 0 <= r < |t'| && t'[r].letter == m;
          assert r < |t| ==> t[r].letter == m;
        }
      }
    }
  }

  /** The table built from any string is well formed and has exactly its
      letters as keys. */
  lemma {:induction false} AaKeyWellFormed(letters: string)
    ensures WellFormed(AaKey(letters), |letters|)
    ensures forall l :: HasLetter(AaKey(letters), l) <==> l in letters
  {
    if letters != [] {
      var init, last := letters[..|letters| - 1], letters[|letters| - 1];
      AaKeyWellFormed(init);
      PutWellFormed(AaKey(init), last, |init|);
      assert letters == init + [last];
    }
  }

  lemma {:induction false} LookupAt(t: Table, p: nat, n: nat)
    requires WellFormed(t, n) && p < |t|
    ensures Lookup(t, t[p].letter) == Some(t[p].index)
  {
    if p > 0 {
      assert t[0].letter != t[p].letter;
      LookupAt(t[1..], p - 1, n);
    }
  }

  lemma {:induction false} GetAAAt(t: Table, p: nat, n: nat)
    requires WellFormed(t, n) && p < |t|
    ensures GetAA(t, t[p].index) == Some(t[p].letter)
  {
    if p > 0 {
      assert t[0].index != t[p].index;
      GetAAAt(t[1..], p - 1, n);
    }
  }

  lemma {:induction false} GetAAMissing(t: Table, n: int)
    requires forall p :: 0 <= p < |t| ==> t[p].index != n
    ensures GetAA(t, n) == None
  {
    if t != [] {
      assert t[0].index != n;
      GetAAMissing(t[1..], n);
    }
  }

  /** `get_AA` inverts `aa_key`: every letter has an index, and that index maps
      back to the letter. This holds even if `letters` repeats a letter, since
      each key keeps the index of its last occurrence and those are distinct. */
  lemma GetAAInvertsAaKey(letters: string, l: char)
    requires l in letters
    ensures Lookup(AaKey(letters), l).Some?
    ensures GetAA(AaKey(letters), Lookup(AaKey(letters), l).value) == Some(l)
  {
    var t := AaKey(letters);
    AaKeyWellFormed(letters);
    var p :| 0 <= p < |t| && t[p].letter == l;
    LookupAt(t, p, |letters|);
    GetAAAt(t, p, |letters|);
  }

  /** For distinct letters the table is the enumeration itself. */
  lemma {:induction false} AaKeyOfDistinct(letters: string)
    requires Distinct(letters)
    ensures |AaKey(letters)| == |letters|
    ensures forall i :: 0 <= i < |letters| ==> AaKey(letters)[i] == Entry(letters[i], i)
  {
    if letters != [] {
      var init, last := letters[..|letters| - 1], letters[|letters| - 1];
      assert Distinct(init);
      AaKeyOfDistinct(init);
      var t := AaKey(init);
      assert !HasLetter(t, last) by {
        forall p | 0 <= p < |t| ensures t[p].letter != last {
          assert t[p].letter == letters[p];
        }
      }
      PutAppends(t, last, |init|);
    }
  }

  /** For distinct letters (as `aa_letters` is), `aa_key` and `get_AA` are
      inverse bijections between the letters and the indices `0..|letters|`,
      and `get_AA` fails on every other index. */
  lemma AaKeyBijection(letters: string)
    requires Distinct(letters)
    ensures forall i :: 0 <= i < |letters| ==> Lookup(AaKey(letters), letters[i]) == Some(i)
    ensures forall i :: 0 <= i < |letters| ==> GetAA(AaKey(letters), i) == Some(letters[i])
    ensures forall n :: (n < 0 || n >= |letters|) ==> GetAA(AaKey(letters), n) == None
  {
    var t := AaKey(letters);
    AaKeyOfDistinct(letters);
    AaKeyWellFormed(letters);
    forall i | 0 <= i < |letters|
      ensures Lookup(t, letters[i]) == Some(i) && GetAA(t, i) == Some(letters[i])
    {
      LookupAt(t, i, |letters|);
      GetAAAt(t, i, |letters|);
    }
    forall n | n < 0 || n >= |letters| ensures GetAA(t, n) == None {
      GetAAMissing(t, n);
    }
  }
}
