/** The global rewrite `message.replace(/\n/g, "<br>")` applied to the message body. */
module LineBreaks {
  import opened Text

  const Break := "<br>"

  /** The markup a single character of the message becomes. */
  function Piece(c: char): string {
    if c == '\n' then Break else [c]
  }

  /** Every '\n' of `m` replaced by "<br>", everything else kept. */
  function ReplaceNewlines(m: string): (r: string)
    ensures |r| == |m| + 3 * Count('\n', m)
  {
    if m == [] then [] else Piece(m[0]) + ReplaceNewlines(m[1..])
  }

  /** Rewriting a concatenation rewrites each part in place. */
  lemma {:induction false} ReplaceConcat(a: string, b: string)
    ensures ReplaceNewlines(a + b) == ReplaceNewlines(a) + ReplaceNewlines(b)
  {
    if a == [] {
      assert a + b == b;
    } else {
      assert (a + b)[1..] == a[1..] + b;
      ReplaceConcat(a[1..], b);
    }
  }

  /** The result holds no '\n'. */
  lemma {:induction false} ReplaceRemovesNewlines(m: string)
    ensures '\n' !in ReplaceNewlines(m)
  {
    if m != [] {
      ReplaceRemovesNewlines(m[1..]);
      assert '\n' !in Piece(m[0]);
    }
  }

  /** A message without '\n' goes through unchanged. */
  lemma {:induction false} ReplaceWithoutNewlines(m: string)
    requires '\n' !in m
    ensures ReplaceNewlines(m) == m
  {
    if m != [] {
      assert '\n' !in m[1..];
      ReplaceWithoutNewlines(m[1..]);
      assert m == [m[0]] + m[1..];
    }
  }

  /** Applying the rewrite twice is the same as applying it once. */
  lemma ReplaceIdempotent(m: string)
    ensures ReplaceNewlines(ReplaceNewlines(m)) == ReplaceNewlines(m)
  {
    ReplaceRemovesNewlines(m);
    ReplaceWithoutNewlines(ReplaceNewlines(m));
  }

  /** A one-character message becomes the markup of that character. */
  lemma ReplaceSingle(c: char)
    ensures ReplaceNewlines([c]) == Piece(c)
  {
    assert [c][1..] == [];
  }

  /** A character surrounded by text is rewritten on its own. */
  lemma ReplaceAround(before: string, c: char, after: string)
    ensures ReplaceNewlines(before + [c] + after) == ReplaceNewlines(before) + Piece(c) + ReplaceNewlines(after)
  {
    ReplaceConcat(before + [c], after);
    ReplaceConcat(before, [c]);
    ReplaceSingle(c);
  }

  /**
   * Where each character of the message lands: character `k` of `m` is
   * found at index k + 3 * (newlines before it) of the result, as itself
   * when it is not '\n' and as the four characters "<br>" when it is. With
   * the length this determines the result completely: every character other
   * than '\n' is kept, in order, and every '\n' becomes one "<br>".
   */
  lemma ReplaceAt(m: string, k: nat)
    requires k < |m|
    ensures var r, p := ReplaceNewlines(m), k + 3 * Count('\n', m[..k]);
      if m[k] == '\n' then OccursAt(Break, r, p) else p < |r| && r[p] == m[k]
  {
    assert m == m[..k] + [m[k]] + m[k + 1..];
    ReplaceAround(m[..k], m[k], m[k + 1..]);
    var before, piece, after := ReplaceNewlines(m[..k]), Piece(m[k]), ReplaceNewlines(m[k + 1..]);
    OccursBetween(before, piece, after);
    assert piece[0] == m[k] || m[k] == '\n';
  }
}
