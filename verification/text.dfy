/** String helpers shared by the two digest documents and the chat embeds. Strings are
    sequences of bytes-as-characters: `|s|` is Go's `len(s)`. */
module Text {
  import opened Models

  predicate OccursAt(part: string, whole: string, i: int)
  {
    0 <= i <= |whole| - |part| && whole[i..i + |part|] == part
  }

  /** `part` occurs in `whole` starting at some position. */
  ghost predicate IsInfix(part: string, whole: string)
  {
    exists i :: OccursAt(part, whole, i)
  }

  /** The parts written one after another, as successive `WriteString` calls do. */
  function Join(parts: seq<string>): string
  {
    if parts == [] then "" else Join(parts[..|parts| - 1]) + parts[|parts| - 1]
  }

  lemma {:induction false} JoinAppend(a: seq<string>, b: seq<string>)
    ensures Join(a + b) == Join(a) + Join(b)
  {
    if b == [] {
      assert a + b == a;
    } else {
      var b', x := b[..|b| - 1], b[|b| - 1];
      assert b == b' + [x];
      assert a + b == (a + b') + [x];
      JoinAppend(a, b');
      JoinLast(a + b', x);
      JoinLast(b', x);
      AppendAssociative(Join(a), Join(b'), x);
    }
  }

  lemma JoinLast(parts: seq<string>, x: string)
    ensures Join(parts + [x]) == Join(parts) + x
  {
    assert (parts + [x])[..|parts|] == parts;
  }

  /** Part `k` sits between everything written before it and everything written after. */
  lemma JoinSplit(parts: seq<string>, k: nat)
    requires k < |parts|
    ensures Join(parts) == Join(parts[..k]) + parts[k] + Join(parts[k + 1..])
  {
    var upTo, right := parts[..k + 1], parts[k + 1..];
    assert parts == upTo + right;
    JoinAppend(upTo, right);
    assert upTo[..k] == parts[..k];
    assert Join(upTo) == Join(parts[..k]) + parts[k];
  }

  lemma InfixOfConcat(part: string, pre: string, post: string)
    ensures IsInfix(part, pre + part + post)
  {
    var whole := pre + part + post;
    assert whole[|pre|..|pre| + |part|] == part;
    assert OccursAt(part, whole, |pre|);
  }

  lemma InfixTransitive(a: string, b: string, c: string)
    requires IsInfix(a, b) && IsInfix(b, c)
    ensures IsInfix(a, c)
  {
    var i :| OccursAt(a, b, i);
    var j :| OccursAt(b, c, j);
    forall t | 0 <= t < |a|
      ensures c[j + i + t] == a[t]
    {
      assert c[j..j + |b|][i + t] == b[i + t];
      assert b[i..i + |a|][t] == b[i + t];
    }
    assert c[j + i..j + i + |a|] == a;
    assert OccursAt(a, c, j + i);
  }

  /** Every part written is found in the joined text. */
  lemma JoinContainsPart(parts: seq<string>, k: nat)
    requires k < |parts|
    ensures IsInfix(parts[k], Join(parts))
  {
    JoinSplit(parts, k);
    InfixOfConcat(parts[k], Join(parts[..k]), Join(parts[k + 1..]));
  }

  /** Cut a text longer than `length` bytes to its first `length` bytes followed by "...". */
  function Truncate(text: string, length: nat): (r: string)
    ensures |r| <= length + 3
    ensures |text| <= length ==> r == text
    ensures var keep := Min(|text|, length); |r| >= keep && r[..keep] == text[..keep]
    ensures |text| > length ==> |r| == length + 3 && r[length..] == "..."
  {
    if |text| > length then text[..length] + "..." else text
  }

  /** Truncating an already truncated text changes nothing. */
  lemma TruncateIdempotent(text: string, length: nat)
    ensures Truncate(Truncate(text, length), length) == Truncate(text, length)
  {
    if |text| > length {
      var r := Truncate(text, length);
      assert r[..length] == text[..length];
    }
  }
}
