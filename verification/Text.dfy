/** Cutting text at a separator. */
module Text {

  /** The position of the first occurrence, or the length of the text. */
  function IndexOf(s: string, c: char): (i: nat)
    ensures i <= |s| && (i < |s| ==> s[i] == c) && forall k :: 0 <= k < i ==> s[k] != c
  {
    if s == "" || s[0] == c then 0 else 1 + IndexOf(s[1..], c)
  }

  /** The pieces between separators: always one more than there are separators. */
  function Split(s: string, c: char): (parts: seq<string>)
    ensures parts != []
    decreases |s|
  {
    var i := IndexOf(s, c);
    if i == |s| then [s] else [s[..i]] + Split(s[i + 1..], c)
  }

  function Join(parts: seq<string>, c: char): string {
    if parts == [] then ""
    else if |parts| == 1 then parts[0]
    else parts[0] + [c] + Join(parts[1..], c)
  }

  lemma IndexOfPiece(p: string, rest: string, c: char)
    requires c !in p
    ensures IndexOf(p, c) == |p|
    ensures IndexOf(p + [c] + rest, c) == |p|
  {
    var s := p + [c] + rest;
    assert s[|p|] == c && forall k :: 0 <= k < |p| ==> s[k] == p[k];
  }

  lemma SplitPiece(p: string, rest: string, c: char)
    requires c !in p
    ensures Split(p, c) == [p]
    ensures Split(p + [c] + rest, c) == [p] + Split(rest, c)
  {
    var s := p + [c] + rest;
    IndexOfPiece(p, rest, c);
    assert s[..|p|] == p && s[|p| + 1..] == rest;
  }

  /** Splitting what was joined gives the pieces back. */
  lemma {:induction false} SplitJoin(parts: seq<string>, c: char)
    requires parts != [] && forall p <- parts :: c !in p
    ensures Split(Join(parts, c), c) == parts
  {
    if |parts| == 1 {
      SplitPiece(parts[0], "", c);
    } else {
      var rest := Join(parts[1..], c);
      SplitJoin(parts[1..], c);
      SplitPiece(parts[0], rest, c);
      assert Join(parts, c) == parts[0] + [c] + rest;
    }
  }

  /** Joining what was split gives the text back, and no piece has a separator in it. */
  lemma {:induction false} JoinSplit(s: string, c: char)
    ensures Join(Split(s, c), c) == s && forall p <- Split(s, c) :: c !in p
    decreases |s|
  {
    var i := IndexOf(s, c);
    if i < |s| {
      var rest := Split(s[i + 1..], c);
      JoinSplit(s[i + 1..], c);
      JoinOnto(s[..i], rest, c);
      assert s == s[..i] + [c] + s[i + 1..];
    }
  }

  lemma JoinOnto(p: string, rest: seq<string>, c: char)
    requires rest != []
    ensures Join([p] + rest, c) == p + [c] + Join(rest, c)
  {
    assert ([p] + rest)[1..] == rest;
  }
}
