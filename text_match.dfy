/**
 * `string.IndexOf(value, StringComparison.OrdinalIgnoreCase) >= 0`, the test
 * the partial-title and partial-description searches apply.
 */
module TextMatch {

  /** Ordinal case folding: lower-case ASCII letters compare as their upper-case forms. */
  function FoldChar(c: char): (f: char)
  {
    if 'a' <= c <= 'z' then (c as int - 32) as char else c
  }

  function Fold(s: string): (f: string)
  {
    seq(|s|, i requires 0 <= i < |s| => FoldChar(s[i]))
  }

  /** `pattern` occurs in `s` starting at index `i`. */
  predicate OccursAt(s: string, pattern: string, i: int)
  {
    0 <= i && i + |pattern| <= |s| && s[i..i + |pattern|] == pattern
  }

  /** The first index at or after `from` where `pattern` occurs in `s`, or -1 if there is none. */
  function IndexOfFrom(s: string, pattern: string, from: nat): (r: int)
    decreases |s| - from
    ensures r == -1 || (from <= r && OccursAt(s, pattern, r))
    ensures r == -1 ==> forall i :: from <= i ==> !OccursAt(s, pattern, i)
    ensures r != -1 ==> forall i :: from <= i < r ==> !OccursAt(s, pattern, i)
  {
    if from + |pattern| > |s| then -1
    else if s[from..from + |pattern|] == pattern then from
    else IndexOfFrom(s, pattern, from + 1)
  }

  /** `string.IndexOf`: the first occurrence of `pattern` in `s`, 0 for the empty pattern, -1 if none. */
  function IndexOf(s: string, pattern: string): (r: int)
    ensures -1 <= r
    ensures r >= 0 ==> OccursAt(s, pattern, r) && forall i :: 0 <= i < r ==> !OccursAt(s, pattern, i)
    ensures r == -1 <==> forall i :: !OccursAt(s, pattern, i)
  {
    IndexOfFrom(s, pattern, 0)
  }

  /** The case-insensitive substring test of the partial searches: the folded pattern occurs somewhere in the folded text. */
  predicate ContainsIgnoreCase(s: string, pattern: string)
    ensures ContainsIgnoreCase(s, pattern) <==> exists i :: OccursAt(Fold(s), Fold(pattern), i)
  {
    IndexOf(Fold(s), Fold(pattern)) >= 0
  }

  /** Every text contains the empty pattern, so an empty search matches every task. */
  lemma EmptyPatternMatches(s: string)
    ensures ContainsIgnoreCase(s, "")
  {
    assert OccursAt(Fold(s), Fold(""), 0);
  }

  lemma {:induction false} FoldIdempotent(s: string)
    ensures Fold(Fold(s)) == Fold(s)
  {
    forall i | 0 <= i < |s| ensures Fold(Fold(s))[i] == Fold(s)[i] {
      assert FoldChar(FoldChar(s[i])) == FoldChar(s[i]);
    }
  }

  /** Case does not matter on either side: upper-casing the text or the pattern never changes the answer. */
  lemma CaseInsensitive(s: string, pattern: string)
    ensures ContainsIgnoreCase(s, pattern) == ContainsIgnoreCase(Fold(s), pattern)
    ensures ContainsIgnoreCase(s, pattern) == ContainsIgnoreCase(s, Fold(pattern))
  {
    FoldIdempotent(s);
    FoldIdempotent(pattern);
  }

  /** The titles of the partial-title unit test: three of the five contain "Task", ignoring case. */
  lemma PartialTitleExamples()
    ensures ContainsIgnoreCase("Task 1", "Task")
    ensures ContainsIgnoreCase("Task 2", "Task")
    ensures !ContainsIgnoreCase("Another Title 1", "Task")
    ensures !ContainsIgnoreCase("Another Title 2", "Task")
    ensures ContainsIgnoreCase("Another Task 1", "Task")
  {
    assert Fold("Task") == "TASK";
    assert Fold("Task 1") == "TASK 1";
    assert OccursAt(Fold("Task 1"), Fold("Task"), 0);
    assert Fold("Task 2") == "TASK 2";
    assert OccursAt(Fold("Task 2"), Fold("Task"), 0);
    assert Fold("Another Task 1") == "ANOTHER TASK 1";
    assert OccursAt(Fold("Another Task 1"), Fold("Task"), 8);
    assert Fold("Another Title 1") == "ANOTHER TITLE 1";
    NoTaskInAnotherTitle("ANOTHER TITLE 1");
    assert Fold("Another Title 2") == "ANOTHER TITLE 2";
    NoTaskInAnotherTitle("ANOTHER TITLE 2");
  }

  lemma NoTaskInAnotherTitle(s: string)
    requires s == "ANOTHER TITLE 1" || s == "ANOTHER TITLE 2"
    ensures forall i :: !OccursAt(s, "TASK", i)
  {
    forall i ensures !OccursAt(s, "TASK", i) {
      if 0 <= i && i + 4 <= |s| {
        assert s[i..i + 4] != "TASK" by {
          assert s[i..i + 4][1] != 'A' || s[i..i + 4][0] != 'T';
        }
      }
    }
  }
}
