/**
 * The thread-id helper of the logging setup: from the debug text of a thread
 * id, such as "ThreadId(7)", it keeps what lies between the first '(' and the
 * last ')', and returns the whole text when either is missing. Text is a
 * sequence of characters; the two delimiters are single characters, so
 * character positions stand for the byte positions the slice uses.
 */
module Utils {
  import opened Wrappers

  /** The position of the first `c` in `s`, if any. */
  function Find(s: string, c: char): (r: Option<nat>)
    ensures r.None? <==> c !in s
    ensures r.Some? ==> r.value < |s| && s[r.value] == c && c !in s[..r.value]
  {
    if s == [] then None
    else if s[0] == c then Some(0)
    else
      match Find(s[1..], c)
      case None => None
      case Some(i) =>
        assert s[..i + 1] == [s[0]] + s[1..][..i];
        Some(i + 1)
  }

  /** The position of the last `c` in `s`, if any. */
  function RFind(s: string, c: char): (r: Option<nat>)
    ensures r.None? <==> c !in s
    ensures r.Some? ==> r.value < |s| && s[r.value] == c && c !in s[r.value + 1..]
  {
    if s == [] then None
    else if s[|s| - 1] == c then Some(|s| - 1)
    else
      var init := s[..|s| - 1];
      assert s == init + [s[|s| - 1]];
      match RFind(init, c)
      case None => None
      case Some(i) =>
        assert s[i + 1..] == init[i + 1..] + [s[|s| - 1]];
        Some(i)
  }

  /**
   * The slice between the two delimiters exists: when the text has both, the
   * last ')' does not come before the first '('. Otherwise the slice would
   * have its start past its end, and slicing aborts.
   */
  predicate SliceInBounds(id: string) {
    match (Find(id, '('), RFind(id, ')'))
    case (Some(start), Some(end)) => start < end
    case _ => true
  }

  /** The text between the first '(' and the last ')', or the whole text. */
  function ParseThreadId(id: string): (r: string)
    requires SliceInBounds(id)
    ensures exists lo, hi :: 0 <= lo <= hi <= |id| && r == id[lo..hi]
  {
    match (Find(id, '('), RFind(id, ')'))
    case (Some(start), Some(end)) => id[start + 1..end]
    case _ => assert id == id[0..|id|]; id
  }

  /**
   * With both delimiters present, the result is exactly the text strictly
   * between the first '(' and the last ')'.
   */
  lemma ParseBetweenDelimiters(id: string, i: nat, j: nat)
    requires i < j < |id|
    requires id[i] == '(' && '(' !in id[..i]
    requires id[j] == ')' && ')' !in id[j + 1..]
    ensures SliceInBounds(id) && ParseThreadId(id) == id[i + 1..j]
  {
    assert Find(id, '(') == Some(i);
    assert RFind(id, ')') == Some(j);
  }

  /** Without a '(' the text is returned unchanged. */
  lemma ParseWithoutOpen(id: string)
    requires '(' !in id
    ensures SliceInBounds(id) && ParseThreadId(id) == id
  {
  }

  /** Without a ')' the text is returned unchanged. */
  lemma ParseWithoutClose(id: string)
    requires ')' !in id
    ensures SliceInBounds(id) && ParseThreadId(id) == id
  {
  }

  /**
   * When the last ')' comes before the first '(', there is no slice between
   * them: the helper aborts on such text.
   */
  lemma CloseBeforeOpenHasNoSlice(id: string, i: nat, j: nat)
    requires i < j < |id|
    requires id[i] == ')' && ')' !in id[i + 1..]
    requires id[j] == '(' && '(' !in id[..j]
    ensures !SliceInBounds(id)
  {
    assert Find(id, '(') == Some(j);
    assert RFind(id, ')') == Some(i);
  }

  /** For example, ")(" has no slice. */
  lemma CloseBeforeOpenExample()
    ensures !SliceInBounds(")(")
  {
    CloseBeforeOpenHasNoSlice(")(", 0, 1);
  }

  /** The debug text of a thread id yields the number between its parentheses. */
  lemma ParseThreadIdText(digits: string)
    requires '(' !in digits && ')' !in digits
    ensures var id := "ThreadId(" + digits + ")";
      SliceInBounds(id) && ParseThreadId(id) == digits
  {
    var id := "ThreadId(" + digits + ")";
    assert id[..8] == "ThreadId";
    assert id[9 + |digits| + 1..] == [];
    ParseBetweenDelimiters(id, 8, 9 + |digits|);
    assert id[9..9 + |digits|] == digits;
  }
}
