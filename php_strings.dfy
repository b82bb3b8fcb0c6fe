/**
 * The PHP string built-ins the core relies on: strpos with a one-character
 * needle, substr from offset 0, explode/implode on one separator character,
 * and the substring test behind SQL's LIKE '%...%'.
 */
module PhpStrings {
  import opened Wrappers

  /** strpos(s, c): the index of the first c in s, or None for PHP's false. */
  function StrPos(s: string, c: char): (r: Option<nat>)
    ensures r.None? <==> c !in s
    ensures r.Some? ==> r.value < |s| && s[r.value] == c && c !in s[..r.value]
  {
    if |s| == 0 then None
    else if s[0] == c then Some(0)
    else
      match StrPos(s[1..], c)
      case None => None
      case Some(i) =>
        assert s[..i + 1] == [s[0]] + s[1..][..i];
        Some(i + 1)
  }

  /** An index holding c with no c before it is the one strpos finds. */
  lemma StrPosFirst(s: string, c: char, k: nat)
    requires k < |s| && s[k] == c && c !in s[..k]
    ensures StrPos(s, c) == Some(k)
  {
    assert s[k] in s;
  }

  /**
   * The integer PHP makes of strpos's result when it is passed as substr's
   * length: false becomes 0.
   */
  function LengthArg(pos: Option<nat>): nat {
    match pos
    case None => 0
    case Some(i) => i
  }

  /** substr(s, 0, n) for a non-negative length n. */
  function Prefix(s: string, n: nat): (r: string)
    ensures |r| == if n <= |s| then n else |s|
    ensures r == s[..|r|]
  {
    if n <= |s| then s[..n] else s
  }

  /** The part of s before the first c; the whole of s when c is absent. */
  function Before(s: string, c: char): (r: string)
    ensures |r| <= |s| && r == s[..|r|] && c !in r
    ensures |r| < |s| ==> s[|r|] == c
  {
    match StrPos(s, c)
    case None => s
    case Some(i) => s[..i]
  }

  /** explode(sep, s): the pieces of s between separators, empty pieces kept. */
  function Explode(sep: char, s: string): (parts: seq<string>)
    ensures |parts| >= 1
    ensures forall p :: p in parts ==> sep !in p
    decreases |s|
  {
    match StrPos(s, sep)
    case None => [s]
    case Some(i) => [s[..i]] + Explode(sep, s[i + 1..])
  }

  /** implode(sep, parts): the parts joined with sep between neighbours. */
  function Implode(sep: char, parts: seq<string>): string {
    if |parts| == 0 then ""
    else if |parts| == 1 then parts[0]
    else parts[0] + [sep] + Implode(sep, parts[1..])
  }

  /** Joining the pieces of explode gives back the exploded string. */
  lemma {:induction false} ImplodeExplode(sep: char, s: string)
    ensures Implode(sep, Explode(sep, s)) == s
    decreases |s|
  {
    var pos := StrPos(s, sep);
    if pos.Some? {
      var i := pos.value;
      var head, tail := s[..i], s[i + 1..];
      var rest := Explode(sep, tail);
      assert Explode(sep, s) == [head] + rest;
      ImplodeExplode(sep, tail);
      ImplodeCons(sep, head, rest);
      assert s == head + [sep] + tail;
    }
  }

  /** Joining a head in front of a non-empty list of parts. */
  lemma ImplodeCons(sep: char, head: string, rest: seq<string>)
    requires |rest| >= 1
    ensures Implode(sep, [head] + rest) == head + [sep] + Implode(sep, rest)
  {
    assert ([head] + rest)[1..] == rest;
  }

  /** Exploding a join of separator-free parts gives back the parts. */
  lemma {:induction false} ExplodeImplode(sep: char, parts: seq<string>)
    requires |parts| >= 1
    requires forall p :: p in parts ==> sep !in p
    ensures Explode(sep, Implode(sep, parts)) == parts
  {
    if |parts| == 1 {
      assert StrPos(parts[0], sep).None?;
    } else {
      var rest := Implode(sep, parts[1..]);
      var s := parts[0] + [sep] + rest;
      assert s[|parts[0]|] == sep;
      assert s[..|parts[0]|] == parts[0];
      StrPosFirst(s, sep, |parts[0]|);
      assert s[|parts[0]| + 1..] == rest;
      ExplodeImplode(sep, parts[1..]);
      assert parts == [parts[0]] + parts[1..];
    }
  }

  /** sub occurs in s starting at index i. */
  predicate OccursAt(s: string, sub: string, i: nat) {
    i + |sub| <= |s| && s[i..i + |sub|] == sub
  }

  /** s LIKE '%sub%' (case-sensitive, no wildcards inside sub). */
  predicate Contains(s: string, sub: string)
    ensures Contains(s, sub) ==> |sub| <= |s|
  {
    if |s| < |sub| then false
    else s[..|sub|] == sub || Contains(s[1..], sub)
  }

  /** The recursive test agrees with "sub occurs at some index of s". */
  lemma {:induction false} ContainsIffOccurs(s: string, sub: string)
    ensures Contains(s, sub) <==> exists i: nat :: OccursAt(s, sub, i)
  {
    if |s| < |sub| {
      forall i: nat ensures !OccursAt(s, sub, i) { }
    } else if s[..|sub|] == sub {
      assert OccursAt(s, sub, 0);
    } else {
      ContainsIffOccurs(s[1..], sub);
      if Contains(s[1..], sub) {
        var i: nat :| OccursAt(s[1..], sub, i);
        assert s[i + 1..i + 1 + |sub|] == s[1..][i..i + |sub|];
        assert OccursAt(s, sub, i + 1);
      } else {
        forall i: nat | OccursAt(s, sub, i) ensures false {
          if i > 0 {
            assert s[1..][i - 1..i - 1 + |sub|] == s[i..i + |sub|];
            assert OccursAt(s[1..], sub, i - 1);
          }
        }
      }
    }
  }
}
