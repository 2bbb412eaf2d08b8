/**
  Tunnel tags: the index-driven scanner `parseTags`, the simple specification it refines, and the
  round trip through a list of tags.  A char stands for a byte of the text.
 */
module Tags {
  import opened Base
  import Text

  datatype Tag = Tag(name: string, value: string)

  // ---------------------------------------------------------------- the specification

  /** A segment cut at its first '=', if both sides are at least two long. */
  function Pair(seg: string): Option<Tag> {
    var k := Text.IndexOf(seg, '=');
    if k > 1 && |seg| - k - 1 > 1 then Some(Tag(seg[..k], seg[k + 1..])) else None
  }

  /** A name keeps the place where it was first seen and takes the value last read. */
  function Put(tags: seq<Tag>, t: Tag): seq<Tag> {
    if tags == [] then [t]
    else if tags[0].name == t.name then [t] + tags[1..]
    else [tags[0]] + Put(tags[1..], t)
  }

  function PutSegment(tags: seq<Tag>, seg: string): seq<Tag> {
    if Pair(seg).Some? then Put(tags, Pair(seg).value) else tags
  }

  /** The tags of the segments, stopping right after the n-th name; a negative n is no limit. */
  function Collect(segs: seq<string>, n: int, acc: seq<Tag>): seq<Tag> {
    if segs == [] || 0 <= n <= |acc| then acc else Collect(segs[1..], n, PutSegment(acc, segs[0]))
  }

  function Parse(s: string, n: int): seq<Tag> {
    Collect(Text.Split(s, ','), n, [])
  }

  lemma ParseNothing(n: int)
    ensures Parse("", n) == []
  {
    assert Text.Split("", ',') == [""];
    assert [""][1..] == [];
    assert Collect([], n, []) == [];
  }

  // ---------------------------------------------------------------- the size estimate

  function Kept(segs: seq<string>): nat {
    if segs == [] then 0 else (if Pair(segs[0]).Some? then 1 else 0) + Kept(segs[1..])
  }

  lemma PutLength(tags: seq<Tag>, t: Tag)
    ensures |tags| <= |Put(tags, t)| <= |tags| + 1
  {
  }

  /** A limit that leaves room for every kept segment is no limit. */
  lemma {:induction false} RoomForAll(segs: seq<string>, n: nat, acc: seq<Tag>)
    requires |acc| + Kept(segs) <= n
    ensures Collect(segs, n, acc) == Collect(segs, -1, acc)
    decreases |segs|
  {
    if segs != [] {
      var acc' := PutSegment(acc, segs[0]);
      if Pair(segs[0]).Some? {
        PutLength(acc, Pair(segs[0]).value);
      }
      RoomForAll(segs[1..], n, acc');
      if |acc| == n {
        NothingKept(segs, acc);
      }
    }
  }

  lemma {:induction false} NothingKept(segs: seq<string>, acc: seq<Tag>)
    requires Kept(segs) == 0
    ensures Collect(segs, -1, acc) == acc
    decreases |segs|
  {
    if segs != [] {
      NothingKept(segs[1..], acc);
    }
  }

  /** A kept segment takes five characters and a separator, so the estimate leaves room for all. */
  lemma {:induction false} EstimateLeavesRoom(s: string)
    ensures 6 * Kept(Text.Split(s, ',')) <= |s| + 1
    decreases |s|
  {
    var i := Text.IndexOf(s, ',');
    if i < |s| {
      EstimateLeavesRoom(s[i + 1..]);
      assert Text.Split(s, ',')[1..] == Text.Split(s[i + 1..], ',');
    }
  }

  /** The capacity estimate never changes the result. */
  lemma EstimateIsHarmless(s: string, n: int)
    requires n != 0
    ensures var wc := (|s| + 1) / 4;
            n < 0 || wc < n ==> Parse(s, wc) == Parse(s, n)
  {
    var segs := Text.Split(s, ',');
    EstimateLeavesRoom(s);
    RoomForAll(segs, (|s| + 1) / 4, []);
    if n > (|s| + 1) / 4 {
      RoomForAll(segs, n, []);
    }
    if n < 0 {
      NoLimit(segs, n, []);
    }
  }

  lemma {:induction false} NoLimit(segs: seq<string>, n: int, acc: seq<Tag>)
    requires n < 0
    ensures Collect(segs, n, acc) == Collect(segs, -1, acc)
    decreases |segs|
  {
    if segs != [] {
      NoLimit(segs[1..], n, PutSegment(acc, segs[0]));
    }
  }

  // ---------------------------------------------------------------- the scanner

  /** The table and the order in which its names were first seen, as tags. */
  function TagsOf(order: seq<string>, table: map<string, string>): seq<Tag>
    requires forall k <- order :: k in table
  {
    seq(|order|, i requires 0 <= i < |order| => Tag(order[i], table[order[i]]))
  }

  ghost predicate Consistent(order: seq<string>, table: map<string, string>) {
    && (forall k <- order :: k in table)
    && (forall k <- table :: k in order)
    && (forall i, j :: 0 <= i < j < |order| ==> order[i] != order[j])
  }

  lemma {:induction false} PutNew(tags: seq<Tag>, t: Tag)
    requires forall i :: 0 <= i < |tags| ==> tags[i].name != t.name
    ensures Put(tags, t) == tags + [t]
  {
    if tags != [] {
      PutNew(tags[1..], t);
    }
  }

  lemma {:induction false} PutOld(tags: seq<Tag>, t: Tag, i: nat)
    requires i < |tags| && tags[i].name == t.name
    requires forall j :: 0 <= j < i ==> tags[j].name != t.name
    ensures Put(tags, t) == tags[i := t]
  {
    if i > 0 {
      PutOld(tags[1..], t, i - 1);
    }
  }

  lemma {:induction false} PutInTable(order: seq<string>, table: map<string, string>, key: string, val: string)
    requires Consistent(order, table)
    ensures var order' := if key in table then order else order + [key];
            && Consistent(order', table[key := val])
            && Put(TagsOf(order, table), Tag(key, val)) == TagsOf(order', table[key := val])
  {
    var tags, t := TagsOf(order, table), Tag(key, val);
    if key in table {
      var i :| 0 <= i < |order| && order[i] == key;
      PutOld(tags, t, i);
      assert TagsOf(order, table[key := val]) == tags[i := t];
    } else {
      PutNew(tags, t);
      assert TagsOf(order + [key], table[key := val]) == tags + [t];
    }
  }

  lemma FirstEquals(s: string, i: nat, j: nat, k: nat)
    requires i <= k < j <= |s| && s[k] == '=' && forall x :: i <= x < k ==> s[x] != '='
    ensures Pair(s[i..j]) == if k - i > 1 && j - k - 1 > 1 then Some(Tag(s[i..k], s[k + 1..j])) else None
  {
    var seg := s[i..j];
    assert forall x :: 0 <= x < |seg| ==> seg[x] == s[i + x];
    assert Text.IndexOf(seg, '=') == k - i;
    assert s[i..k] == seg[..k - i] && s[k + 1..j] == seg[k - i + 1..];
  }

  lemma NoEquals(s: string, i: nat, j: nat)
    requires i <= j <= |s| && forall x :: i <= x < j ==> s[x] != '='
    ensures Pair(s[i..j]) == None
  {
    var seg := s[i..j];
    assert forall x :: 0 <= x < |seg| ==> seg[x] == s[i + x];
    assert Text.IndexOf(seg, '=') == |seg|;
  }

  /** The inner loop: look for the first '=' of the segment s[i..j], and store the pair if it is kept. */
  method StoreSegment(s: string, i: nat, j: nat, order: seq<string>, table: map<string, string>, m: nat)
    returns (order': seq<string>, table': map<string, string>, m': nat)
    requires i <= j <= |s| && Consistent(order, table) && m == |order|
    ensures Consistent(order', table') && m' == |order'|
    ensures TagsOf(order', table') == PutSegment(TagsOf(order, table), s[i..j])
  {
    order', table', m' := order, table, m;
    var k := i;
    while k < j
      invariant i <= k <= j && order' == order && table' == table && m' == m
      invariant forall x :: i <= x < k ==> s[x] != '='
    {
      if s[k] == '=' {
        FirstEquals(s, i, j, k);
        if k - i > 1 && j - k - 1 > 1 {
          var key := s[i..k];
          var val := s[k + 1..j];
          PutInTable(order, table, key, val);
          if key !in table {
            order', m' := order + [key], m + 1;
          }
          table' := table[key := val];
        }
        return;
      }
      k := k + 1;
    }
    NoEquals(s, i, j);
  }

  /** What is still to come when the scan of the text stands at position j, in a segment begun at i. */
  ghost function Rest(s: string, i: nat, j: nat, cap: int, acc: seq<Tag>): seq<Tag>
    requires j <= |s| ==> i <= j
  {
    if j <= |s| then Collect(Text.Split(s[i..], ','), cap, acc) else acc
  }

  lemma {:induction false} RestEnds(s: string, i: nat, j: nat, cap: int, acc: seq<Tag>)
    requires (j <= |s| ==> i <= j) && cap >= 0 && (j > |s| || |acc| >= cap)
    ensures Rest(s, i, j, cap, acc) == acc
  {
  }

  lemma {:induction false} RestBegins(s: string, cap: int)
    ensures Rest(s, 0, 0, cap, []) == Parse(s, cap)
  {
    assert s[0..] == s;
  }

  /** The scan stands at j, in a segment begun at i. */
  ghost predicate At(s: string, i: nat, j: nat) {
    && (i <= j <= |s| || i == j == |s| + 1)
    && (j <= |s| ==> forall x :: i <= x < j ==> s[x] != ',')
  }

  predicate SegmentEnds(s: string, j: nat)
    requires j <= |s|
  {
    j == |s| || s[j] == ','
  }

  /** The outer loop. */
  method Scan(s: string, cap: int) returns (order: seq<string>, table: map<string, string>)
    requires cap >= 0
    ensures Consistent(order, table) && TagsOf(order, table) == Parse(s, cap)
  {
    table, order := map[], [];
    var i, j, m := 0, 0, 0;
    RestBegins(s, cap);
    ghost var goal, acc := Parse(s, cap), TagsOf(order, table);
    while j <= |s| && m < cap
      invariant At(s, i, j) && Consistent(order, table) && m == |order|
      invariant acc == TagsOf(order, table) && goal == Rest(s, i, j, cap, acc)
      decreases |s| + 1 - j
    {
      if SegmentEnds(s, j) {
        RestCut(s, i, j, cap, acc);
        order, table, m := StoreSegment(s, i, j, order, table, m);
        acc := TagsOf(order, table);
        i := j + 1;
      } else {
        RestSkip(s, i, j, cap, acc);
      }
      j := j + 1;
    }
    RestEnds(s, i, j, cap, acc);
  }

  method ParseTags(s: string, n: int) returns (tags: seq<Tag>)
    ensures tags == Parse(s, n)
  {
    if |s| == 0 || n == 0 {
      ParseNothing(n);
      return [];
    }
    var cap := n;
    var wc := (|s| + 1) / 4;
    if n < 0 || wc < n {
      cap := wc;
    }
    EstimateIsHarmless(s, n);
    var order, table := Scan(s, cap);
    tags := [];
    for x := 0 to |order|
      invariant tags == TagsOf(order, table)[..x]
    {
      tags := tags + [Tag(order[x], table[order[x]])];
    }
  }

  /** The segment between two commas is the first piece of what is left to split. */
  lemma {:induction false} CutSegment(s: string, i: nat, j: nat)
    requires i <= j <= |s| && (j < |s| ==> s[j] == ',')
    requires forall x :: i <= x < j ==> s[x] != ','
    ensures Text.Split(s[i..], ',') == [s[i..j]] + if j < |s| then Text.Split(s[j + 1..], ',') else []
  {
    assert forall x <- s[i..j] :: x != ',';
    if j < |s| {
      assert s[i..] == s[i..j] + [','] + s[j + 1..];
      Text.SplitPiece(s[i..j], s[j + 1..], ',');
    } else {
      assert s[i..] == s[i..j];
      Text.SplitPiece(s[i..j], "", ',');
    }
  }

  lemma {:induction false} CollectHead(head: string, tail: seq<string>, n: int, acc: seq<Tag>)
    requires |acc| < n
    ensures Collect([head] + tail, n, acc) == Collect(tail, n, PutSegment(acc, head))
  {
    assert ([head] + tail)[1..] == tail;
  }

  /** Reading that segment is one step of the specification. */
  lemma {:induction false} RestCut(s: string, i: nat, j: nat, cap: int, acc: seq<Tag>)
    requires At(s, i, j) && j <= |s| && SegmentEnds(s, j) && |acc| < cap
    ensures At(s, j + 1, j + 1)
    ensures Rest(s, i, j, cap, acc) == Rest(s, j + 1, j + 1, cap, PutSegment(acc, s[i..j]))
  {
    var tail := if j < |s| then Text.Split(s[j + 1..], ',') else [];
    CutSegment(s, i, j);
    CollectHead(s[i..j], tail, cap, acc);
  }

  lemma {:induction false} RestSkip(s: string, i: nat, j: nat, cap: int, acc: seq<Tag>)
    requires At(s, i, j) && j <= |s| && !SegmentEnds(s, j)
    ensures At(s, i, j + 1)
    ensures Rest(s, i, j, cap, acc) == Rest(s, i, j + 1, cap, acc)
  {
  }

  // ---------------------------------------------------------------- what the specification means

  function ValueOf(tags: seq<Tag>, name: string): Option<string> {
    if tags == [] then None
    else if tags[0].name == name then Some(tags[0].value)
    else ValueOf(tags[1..], name)
  }

  /** The value of the last kept pair with the name. */
  function LastValue(segs: seq<string>, name: string): Option<string> {
    if segs == [] then None
    else
      var p := Pair(segs[|segs| - 1]);
      if p.Some? && p.value.name == name then Some(p.value.value) else LastValue(segs[..|segs| - 1], name)
  }

  lemma {:induction false} PutValue(tags: seq<Tag>, t: Tag, name: string)
    ensures ValueOf(Put(tags, t), name) == if name == t.name then Some(t.value) else ValueOf(tags, name)
  {
    if tags != [] && tags[0].name != t.name {
      PutValue(tags[1..], t, name);
    }
  }

  lemma {:induction false} CollectOneMore(segs: seq<string>, seg: string, acc: seq<Tag>)
    ensures Collect(segs + [seg], -1, acc) == PutSegment(Collect(segs, -1, acc), seg)
    decreases |segs|
  {
    if segs == [] {
      assert (segs + [seg])[1..] == [];
    } else {
      assert (segs + [seg])[1..] == segs[1..] + [seg];
      CollectOneMore(segs[1..], seg, PutSegment(acc, segs[0]));
    }
  }

  /** Without a limit a name has the value of the last kept pair that has it, and is absent if none has. */
  lemma {:induction false} LastValueWins(segs: seq<string>, name: string)
    ensures ValueOf(Collect(segs, -1, []), name) == LastValue(segs, name)
    decreases |segs|
  {
    if segs != [] {
      var rest, seg := segs[..|segs| - 1], segs[|segs| - 1];
      LastValueWins(rest, name);
      assert segs == rest + [seg];
      CollectOneMore(rest, seg, []);
      if Pair(seg).Some? {
        PutValue(Collect(rest, -1, []), Pair(seg).value, name);
      }
    }
  }

  /** The segment is the tag with an "=" between: the first one, with at least two characters on each side. */
  predicate Holds(seg: string, t: Tag) {
    seg == t.name + "=" + t.value && '=' !in t.name && |t.name| >= 2 && |t.value| >= 2
  }

  lemma PairExact(seg: string, t: Tag)
    ensures Pair(seg) == Some(t) <==> Holds(seg, t)
  {
    var k := Text.IndexOf(seg, '=');
    if Pair(seg) == Some(t) {
      assert seg == seg[..k] + "=" + seg[k + 1..];
    }
    if Holds(seg, t) {
      Text.IndexOfPiece(t.name, t.value, '=');
      assert seg[..|t.name|] == t.name && seg[|t.name| + 1..] == t.value;
    }
  }

  /** Segment i holds the tag, and no later one holds a tag of that name. */
  ghost predicate LastHolds(segs: seq<string>, t: Tag, i: int) {
    && 0 <= i < |segs| && Holds(segs[i], t)
    && forall k, v :: i < k < |segs| ==> !Holds(segs[k], Tag(t.name, v))
  }

  lemma {:induction false} LastValueExact(segs: seq<string>, t: Tag)
    ensures LastValue(segs, t.name) == Some(t.value) <==> HeldLast(segs, t)
    decreases |segs|
  {
    if segs != [] {
      var n := |segs| - 1;
      var before, p := segs[..n], Pair(segs[n]);
      LastValueExact(before, t);
      forall v { PairExact(segs[n], Tag(t.name, v)); }
      if p.Some? && p.value.name == t.name {
        assert p == Some(Tag(t.name, p.value.value));
        assert p.value == t ==> LastHolds(segs, t, n);
      } else {
        OneMoreSegment(before, segs[n], t);
        assert before + [segs[n]] == segs;
      }
    }
  }

  lemma OneMoreSegment(segs: seq<string>, seg: string, t: Tag)
    requires forall v :: !Holds(seg, Tag(t.name, v))
    ensures HeldLast(segs + [seg], t) <==> HeldLast(segs, t)
  {
    var more := segs + [seg];
    assert t == Tag(t.name, t.value);
    if i :| LastHolds(segs, t, i) {
      assert LastHolds(more, t, i);
    }
    if i :| LastHolds(more, t, i) {
      assert forall k :: 0 <= k < |segs| ==> more[k] == segs[k];
      assert LastHolds(segs, t, i);
    }
  }

  lemma {:induction false} ValueOfExact(tags: seq<Tag>, t: Tag)
    requires Distinct(tags)
    ensures ValueOf(tags, t.name) == Some(t.value) <==> t in tags
  {
    if tags != [] {
      ValueOfExact(tags[1..], t);
    }
  }

  /**
    Without a limit the tags are exactly those held by a segment between commas that is the last one
    to hold a tag of that name, each once.
   */
  lemma ParseExact(s: string, n: int, t: Tag)
    requires n < 0
    ensures t in Parse(s, n) <==> HeldLast(Text.Split(s, ','), t)
    ensures Distinct(Parse(s, n))
  {
    NoLimit(Text.Split(s, ','), n, []);
    UnlimitedExact(Text.Split(s, ','), t);
  }

  /** Some segment holds the tag, and no later one holds a tag of its name. */
  ghost predicate HeldLast(segs: seq<string>, t: Tag) {
    exists i :: LastHolds(segs, t, i)
  }

  lemma UnlimitedExact(segs: seq<string>, t: Tag)
    ensures t in Collect(segs, -1, []) <==> HeldLast(segs, t)
    ensures Distinct(Collect(segs, -1, []))
  {
    CollectKeepsPlaces(segs, -1, []);
    LastValueWins(segs, t.name);
    ValueOfExact(Collect(segs, -1, []), t);
    LastValueExact(segs, t);
  }

  /**
    A limit cuts the list of segments: the tags are those of its first k segments without a limit,
    where the k-th segment is the one that brings the n-th name, or the last of all.
   */
  lemma {:induction false} StopsAtTheLimit(segs: seq<string>, n: int, acc: seq<Tag>) returns (k: nat)
    ensures k <= |segs| && Collect(segs, n, acc) == Collect(segs[..k], -1, acc)
    ensures k < |segs| ==> 0 <= n <= |Collect(segs, n, acc)|
    ensures k > 0 && n >= 0 ==> |Collect(segs[..k - 1], -1, acc)| < n
    decreases |segs|
  {
    k := 0;
    if segs != [] && !(0 <= n <= |acc|) {
      var acc' := PutSegment(acc, segs[0]);
      var j := StopsAtTheLimit(segs[1..], n, acc');
      k := j + 1;
      assert segs[..k][1..] == segs[1..][..j];
      if j > 0 {
        assert segs[..k - 1][1..] == segs[1..][..j - 1];
      }
    }
  }

  ghost predicate Distinct(tags: seq<Tag>) {
    forall i, j :: 0 <= i < j < |tags| ==> tags[i].name != tags[j].name
  }

  /** Names first seen keep their places. */
  ghost predicate Extends(tags: seq<Tag>, more: seq<Tag>) {
    |tags| <= |more| && forall i :: 0 <= i < |tags| ==> tags[i].name == more[i].name
  }

  lemma PutKeepsPlaces(tags: seq<Tag>, t: Tag)
    requires Distinct(tags)
    ensures Distinct(Put(tags, t)) && Extends(tags, Put(tags, t))
  {
    if i :| 0 <= i < |tags| && tags[i].name == t.name {
      PutOld(tags, t, i);
    } else {
      PutNew(tags, t);
    }
  }

  /** Names are unique, in the order first seen, and no more than the limit. */
  lemma {:induction false} CollectKeepsPlaces(segs: seq<string>, n: int, acc: seq<Tag>)
    requires Distinct(acc) && (n >= 0 ==> |acc| <= n)
    ensures Distinct(Collect(segs, n, acc)) && Extends(acc, Collect(segs, n, acc))
    ensures n >= 0 ==> |Collect(segs, n, acc)| <= n
    decreases |segs|
  {
    if segs != [] && !(0 <= n <= |acc|) {
      var acc' := PutSegment(acc, segs[0]);
      if Pair(segs[0]).Some? {
        PutKeepsPlaces(acc, Pair(segs[0]).value);
        PutLength(acc, Pair(segs[0]).value);
      }
      CollectKeepsPlaces(segs[1..], n, acc');
    }
  }

  // ---------------------------------------------------------------- the round trip

  predicate WellFormed(t: Tag) {
    |t.name| >= 2 && |t.value| >= 2 && ',' !in t.name && '=' !in t.name && ',' !in t.value
  }

  function Encode(t: Tag): string {
    t.name + "=" + t.value
  }

  function EncodeAll(tags: seq<Tag>): seq<string> {
    seq(|tags|, i requires 0 <= i < |tags| => Encode(tags[i]))
  }

  lemma PairEncode(t: Tag)
    requires WellFormed(t)
    ensures Pair(Encode(t)) == Some(t) && ',' !in Encode(t)
  {
    Text.IndexOfPiece(t.name, t.value, '=');
    assert Encode(t)[..|t.name|] == t.name && Encode(t)[|t.name| + 1..] == t.value;
  }

  lemma {:induction false} CollectEncoded(tags: seq<Tag>, n: int, acc: seq<Tag>)
    requires (forall t <- tags :: WellFormed(t)) && Distinct(acc + tags)
    requires n < 0 || n >= |acc| + |tags|
    ensures Collect(EncodeAll(tags), n, acc) == acc + tags
    decreases |tags|
  {
    if tags != [] {
      PairEncode(tags[0]);
      forall i | 0 <= i < |acc| ensures acc[i].name != tags[0].name {
        assert (acc + tags)[i] == acc[i] && (acc + tags)[|acc|] == tags[0];
      }
      PutNew(acc, tags[0]);
      assert acc + [tags[0]] + tags[1..] == acc + tags;
      assert EncodeAll(tags)[1..] == EncodeAll(tags[1..]);
      CollectEncoded(tags[1..], n, acc + [tags[0]]);
    }
  }

  /** Writing out distinct well-formed tags and parsing them gives the same list in the same order. */
  lemma {:induction false} RoundTrip(tags: seq<Tag>, n: int)
    requires (forall t <- tags :: WellFormed(t)) && Distinct(tags)
    requires n < 0 || n >= |tags|
    ensures Parse(Text.Join(EncodeAll(tags), ','), n) == tags
  {
    assert [] + tags == tags;
    if tags == [] {
      ParseNothing(n);
    } else {
      forall p | p in EncodeAll(tags) ensures ',' !in p {
        var i :| 0 <= i < |tags| && p == Encode(tags[i]);
        PairEncode(tags[i]);
      }
      Text.SplitJoin(EncodeAll(tags), ',');
      CollectEncoded(tags, n, []);
    }
  }
}
