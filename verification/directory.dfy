/**
 * The directory validator: decides whether a target directory may become a
 * fresh project root. The directory listing is an input (a sequence of entry
 * names in listing order); reading the file system is not modelled.
 */
module Directory {

  /** Entries that may already sit in the target directory without conflict. */
  const AllowList: seq<string> := [
    ".DS_Store", "Thumbs.db", ".git", ".gitignore", ".idea", "README.md",
    "LICENSE", "web.iml", ".hg", ".hgignore", ".hgcheck"
  ]

  /** Exact, case-sensitive membership, as `Array.prototype.includes` on strings. */
  predicate Allowed(name: string) {
    name in AllowList
  }

  datatype Verdict = Safe | Unsafe(conflicts: seq<string>)

  /** True iff `a` can be obtained from `b` by deleting elements. */
  predicate SubsequenceOf<T(==)>(a: seq<T>, b: seq<T>)
    decreases |b|
  {
    if |a| == 0 then true
    else if |b| == 0 then false
    else if a[0] == b[0] then SubsequenceOf(a[1..], b[1..])
    else SubsequenceOf(a, b[1..])
  }

  /**
   * The entries that are not allow-listed, in listing order (the `filter` of
   * the listing).
   */
  function Conflicts(entries: seq<string>): (c: seq<string>)
    ensures forall i :: 0 <= i < |c| ==> !Allowed(c[i])
    ensures |c| <= |entries|
  {
    if |entries| == 0 then []
    else
      var rest := Conflicts(entries[1..]);
      if Allowed(entries[0]) then rest else [entries[0]] + rest
  }

  /**
   * Every conflicting occurrence is kept, duplicates included, and nothing
   * else is: a name occurs among the conflicts exactly as often as in the
   * listing when it is not allow-listed, and never otherwise.
   */
  lemma {:induction false} ConflictsCount(entries: seq<string>)
    ensures forall x :: multiset(Conflicts(entries))[x] == (if Allowed(x) then 0 else multiset(entries)[x])
    decreases |entries|
  {
    if |entries| > 0 {
      ConflictsCount(entries[1..]);
      assert entries == [entries[0]] + entries[1..];
    }
  }

  /**
   * The validator's decision: safe exactly when nothing conflicts; otherwise
   * the conflicting entries, which are reported to the user.
   */
  function IsSafeToCreateProjectIn(entries: seq<string>): (v: Verdict)
    ensures v.Safe? <==> forall i :: 0 <= i < |entries| ==> Allowed(entries[i])
    ensures v.Unsafe? ==> |v.conflicts| > 0 && v.conflicts == Conflicts(entries)
    ensures |entries| == 0 ==> v == Safe
  {
    var c := Conflicts(entries);
    NoConflictsIffAllAllowed(entries);
    if |c| < 1 then
      Safe
    else
      Unsafe(c)
  }

  /** Nothing conflicts exactly when every entry is allow-listed. */
  lemma NoConflictsIffAllAllowed(entries: seq<string>)
    ensures |Conflicts(entries)| == 0 <==> forall i :: 0 <= i < |entries| ==> Allowed(entries[i])
  {
    var c := Conflicts(entries);
    ConflictsCount(entries);
    if |c| == 0 {
      forall i | 0 <= i < |entries|
        ensures Allowed(entries[i])
      {
        assert entries[i] in multiset(entries);
        assert multiset(c)[entries[i]] == 0;
      }
    } else {
      assert c[0] in multiset(c);
      assert c[0] in multiset(entries);
      var i :| 0 <= i < |entries| && entries[i] == c[0];
      assert !Allowed(entries[i]);
    }
  }

  /** The reported conflicts appear in the same relative order as in the listing. */
  lemma {:induction false} ConflictsAreSubsequence(entries: seq<string>)
    ensures SubsequenceOf(Conflicts(entries), entries)
  {
    if |entries| > 0 {
      var rest := Conflicts(entries[1..]);
      ConflictsAreSubsequence(entries[1..]);
      if Allowed(entries[0]) {
        // rest holds no allow-listed name, so it cannot start with entries[0]
        if |rest| > 0 {
          assert rest[0] != entries[0];
        }
      } else {
        assert ([entries[0]] + rest)[1..] == rest;
      }
    }
  }

  /** The conflicts of a listing are those of its first entry followed by those of the rest. */
  lemma ConflictsCons(x: string, rest: seq<string>)
    ensures Conflicts([x] + rest) == (if Allowed(x) then [] else [x]) + Conflicts(rest)
  {
    assert ([x] + rest)[1..] == rest;
  }

  /** Appending an entry to the listing appends it to the conflicts iff it is not allowed. */
  lemma {:induction false} ConflictsSnoc(entries: seq<string>, x: string)
    ensures Conflicts(entries + [x]) == Conflicts(entries) + (if Allowed(x) then [] else [x])
    decreases |entries|
  {
    if |entries| == 0 {
      assert entries + [x] == [x] + [];
      ConflictsCons(x, []);
    } else {
      var head, tail := entries[0], entries[1..];
      assert entries == [head] + tail;
      assert entries + [x] == [head] + (tail + [x]);
      ConflictsCons(head, tail + [x]);
      ConflictsCons(head, tail);
      ConflictsSnoc(tail, x);
    }
  }
}
