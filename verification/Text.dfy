/** String searching, splitting, joining and percent-decoding: common/src/string_utils.cpp.
    A `std::string` is a sequence of characters below 256 where its bytes matter.
 */
module Text {
  import opened Options

  // ---------------------------------------------------------------- find

  // `d` stands at position `i` of `s`.
  predicate At(s: string, d: string, i: nat) {
    i + |d| <= |s| && s[i..i + |d|] == d
  }

  // `find`: the first position from `from` on where `d` stands, or the length plus one.
  function Find(s: string, d: string, from: nat): (i: nat)
    ensures i <= |s| ==> from <= i && At(s, d, i)
    ensures i <= |s| || i == |s| + 1
    ensures forall j: nat :: from <= j < i ==> !At(s, d, j)
    decreases |s| - from
  {
    if from + |d| > |s| then |s| + 1
    else if At(s, d, from) then from
    else Find(s, d, from + 1)
  }

  // The last position up to `from` where `d` stands, or the length plus one.
  function FindLast(s: string, d: string, from: nat): (i: nat)
    ensures i <= |s| ==> i <= from && At(s, d, i)
    ensures i <= |s| || i == |s| + 1
    ensures forall j: nat :: (i > |s| || i < j) && j <= from ==> !At(s, d, j)
  {
    if At(s, d, from) then from
    else if from == 0 then |s| + 1
    else FindLast(s, d, from - 1)
  }

  predicate Contains(s: string, d: string) {
    Find(s, d, 0) <= |s|
  }

  predicate EndsWith(s: string, d: string) {
    |d| <= |s| && s[|s| - |d|..] == d
  }

  // `erase_first`, `erase_last` of the string algorithms
  function EraseFirst(s: string, d: string): string {
    var i := Find(s, d, 0);
    if i > |s| then s else s[..i] + s[i + |d|..]
  }

  function EraseLast(s: string, d: string): string {
    if |d| > |s| then s
    else
      var i := FindLast(s, d, |s| - |d|);
      if i > |s| then s else s[..i] + s[i + |d|..]
  }

  lemma EraseAtEnds(s: string, d: string)
    ensures d <= s ==> EraseFirst(s, d) == s[|d|..]
    ensures EndsWith(s, d) ==> EraseLast(s, d) == s[..|s| - |d|]
  {
    if d <= s {
      assert At(s, d, 0);
    }
    if EndsWith(s, d) {
      assert At(s, d, |s| - |d|);
    }
  }

  // ---------------------------------------------------------------- split and join

  function Join(pieces: seq<string>, d: string): string {
    if pieces == [] then ""
    else if |pieces| == 1 then pieces[0]
    else pieces[0] + d + Join(pieces[1..], d)
  }

  // The pieces after at least one delimiter was seen: an empty rest gives no piece.
  function Pieces(s: string, d: string): seq<string>
    requires d != []
  {
    var i := Find(s, d, 0);
    if i > |s| then (if s == "" then [] else [s])
    else [s[..i]] + Pieces(s[i + |d|..], d)
  }

  /** `splitStringView`, and `splitStringInto` but for a string without the delimiter. */
  function Split(s: string, d: string): (r: seq<string>)
    requires d != []
    ensures r != []
  {
    if Contains(s, d) then Pieces(s, d) else [s]
  }

  // Whether splitting drops an empty piece behind the last delimiter.
  predicate DropsLast(s: string, d: string)
    requires d != []
  {
    var i := Find(s, d, 0);
    if i > |s| then s == "" else DropsLast(s[i + |d|..], d)
  }

  lemma NoneInside(s: string, d: string, i: nat)
    requires d != [] && i == Find(s, d, 0) <= |s|
    ensures !Contains(s[..i], d)
  {
    forall j: nat | At(s[..i], d, j)
      ensures At(s, d, j)
    {
      assert s[..i][j..j + |d|] == s[j..j + |d|];
    }
  }

  lemma JoinCons(piece: string, pieces: seq<string>, d: string)
    ensures Join([piece] + pieces, d) == piece + if pieces == [] then "" else d + Join(pieces, d)
  {
    assert ([piece] + pieces)[1..] == pieces;
  }

  lemma PiecesCons(s: string, d: string)
    requires d != [] && Contains(s, d)
    ensures var i := Find(s, d, 0);
            && Pieces(s, d) == [s[..i]] + Pieces(s[i + |d|..], d)
            && DropsLast(s, d) == DropsLast(s[i + |d|..], d)
            && s == s[..i] + d + s[i + |d|..]
            && !Contains(s[..i], d)
  {
    var i := Find(s, d, 0);
    NoneInside(s, d, i);
    PiecesAt(s, d, i);
    assert DropsLast(s, d) == DropsLast(s[i + |d|..], d);
    hide Find, Pieces, DropsLast;
    FoundSplits(s, d, i);
  }

  lemma FoundSplits(s: string, d: string, i: nat)
    requires At(s, d, i)
    ensures s == s[..i] + d + s[i + |d|..]
  {
  }

  /** No piece contains the delimiter, and joining the pieces gives the string back, up to one
      delimiter at its end that had nothing behind it. */
  lemma {:induction false} SplitMeaning(s: string, d: string)
    requires d != []
    ensures forall i :: 0 <= i < |Split(s, d)| ==> !Contains(Split(s, d)[i], d)
    ensures s == Join(Split(s, d), d) + if Contains(s, d) && DropsLast(s, d) then d else ""
  {
    PiecesMeaning(s, d);
    if Contains(s, d) {
      PiecesCons(s, d);
      hide Pieces;
      assert s != "" && Split(s, d) == Pieces(s, d);
    }
  }

  lemma {:induction false} PiecesMeaning(s: string, d: string)
    requires d != []
    ensures forall i :: 0 <= i < |Pieces(s, d)| ==> !Contains(Pieces(s, d)[i], d)
    ensures s != "" ==> s == Join(Pieces(s, d), d) + if DropsLast(s, d) then d else ""
    ensures Pieces(s, d) == [] <==> s == ""
    ensures s == "" ==> DropsLast(s, d)
    decreases |s|
  {
    hide Pieces, DropsLast, Find, At, Join;
    if Contains(s, d) {
      var i := Find(s, d, 0);
      PiecesCons(s, d);
      PiecesMeaning(s[i + |d|..], d);
      hide Contains;
      JoinCons(s[..i], Pieces(s[i + |d|..], d), d);
      Rejoin(s[..i], d, s[i + |d|..], Join(Pieces(s[i + |d|..], d), d), DropsLast(s, d));
    } else {
      PiecesNone(s, d);
      JoinOne(s, d);
    }
  }

  lemma Rejoin(piece: string, d: string, rest: string, joined: string, dropped: bool)
    requires rest != "" ==> rest == joined + if dropped then d else ""
    ensures rest != "" ==> piece + d + rest == piece + (d + joined) + if dropped then d else ""
    ensures rest == "" ==> piece + d + rest == piece + "" + d
  {
  }

  lemma JoinOne(s: string, d: string)
    ensures Join([s], d) == s && Join([], d) == ""
  {
  }

  lemma PiecesNone(s: string, d: string)
    requires d != [] && !Contains(s, d)
    ensures Pieces(s, d) == if s == "" then [] else [s]
    ensures DropsLast(s, d) <==> s == ""
  {
  }

  lemma PiecesAt(s: string, d: string, k: nat)
    requires d != [] && k == Find(s, d, 0) <= |s|
    ensures Pieces(s, d) == [s[..k]] + Pieces(s[k + |d|..], d)
  {
  }

  lemma SliceSlice(s: string, from: nat, index: nat, n: nat)
    requires from <= index <= index + n <= |s|
    ensures s[from..][..index - from] == s[from..index]
    ensures s[from..][index - from + n..] == s[index + n..]
  {
  }

  // What the loop sees from a later start.
  lemma PiecesFrom(s: string, d: string, from: nat)
    requires d != [] && from <= |s|
    ensures var index := Find(s, d, from);
            Pieces(s[from..], d)
            == if index <= |s| then [s[from..index]] + Pieces(s[index + |d|..], d)
               else if from < |s| then [s[from..]] else []
  {
    hide Find, Pieces, At;
    FindInRest(s, d, from);
    if Find(s, d, from) <= |s| {
      FoundInside(s, d, from);
      PiecesFound(s, d, from, Find(s, d, from));
    } else {
      PiecesNone(s[from..], d);
    }
  }

  lemma FoundInside(s: string, d: string, from: nat)
    ensures Find(s, d, from) <= |s| ==> from <= Find(s, d, from) <= |s| - |d|
  {
  }

  lemma PiecesFound(s: string, d: string, from: nat, index: nat)
    requires d != [] && from <= index <= |s| - |d| && Find(s[from..], d, 0) == index - from
    ensures Pieces(s[from..], d) == [s[from..index]] + Pieces(s[index + |d|..], d)
  {
    hide Find, Pieces, At;
    var rest, k := s[from..], index - from;
    assert rest[..k] == s[from..index] && rest[k + |d|..] == s[index + |d|..] by {
      SliceSlice(s, from, index, |d|);
    }
    PiecesAs(rest, d, k, s[from..index], s[index + |d|..]);
  }

  lemma PiecesAs(s: string, d: string, k: nat, piece: string, rest: string)
    requires d != [] && k == Find(s, d, 0) <= |s| && k + |d| <= |s|
    requires piece == s[..k] && rest == s[k + |d|..]
    ensures Pieces(s, d) == [piece] + Pieces(rest, d)
  {
    hide Find, Pieces, At;
    PiecesAt(s, d, k);
  }

  /** `splitStringView` as the loop it is. */
  method SplitStringView(s: string, d: string) returns (result: seq<string>)
    requires d != []
    ensures result == Split(s, d)
  {
    hide Pieces, Find, At;
    var from := 0;
    var index := Find(s, d, from);
    if index > |s| {
      return [s];
    }
    result := [];
    assert s[0..] == s;
    while index <= |s|
      invariant 0 <= from <= |s|
      invariant index == Find(s, d, from)
      invariant Pieces(s, d) == result + Pieces(s[from..], d)
      decreases |s| + 1 - from
    {
      PiecesFrom(s, d, from);
      FoundInside(s, d, from);
      result := result + [s[from..index]];
      from := index + |d|;
      index := Find(s, d, from);
    }
    PiecesFrom(s, d, from);
    if from < |s| {
      result := result + [s[from..]];
    }
  }

  lemma {:induction false} FindInRest(s: string, d: string, from: nat)
    requires from <= |s| && d != []
    ensures Find(s, d, from) <= |s| ==> Find(s[from..], d, 0) == Find(s, d, from) - from
    ensures Find(s, d, from) > |s| ==> Find(s[from..], d, 0) > |s[from..]|
  {
    var rest := s[from..];
    forall j: nat
      ensures At(rest, d, j) == At(s, d, from + j)
    {
      if from + j + |d| <= |s| {
        assert rest[j..j + |d|] == s[from + j..from + j + |d|];
      }
    }
    var i, k := Find(s, d, from), Find(rest, d, 0);
    if i <= |s| {
      assert At(rest, d, i - from);
    }
    if k <= |rest| {
      assert At(s, d, from + k);
    }
  }

  // ---------------------------------------------------------------- replacing

  // `replaceIfStarts`, which replaces wherever `old` stands, from left to right.
  function Replace(s: string, was: string, now: string): string
    requires was != []
  {
    var i := Find(s, was, 0);
    if i > |s| then s else s[..i] + now + Replace(s[i + |was|..], was, now)
  }

  // What stands between the occurrences, empty or not.
  function Between(s: string, d: string): (r: seq<string>)
    requires d != []
    ensures r != []
  {
    var i := Find(s, d, 0);
    if i > |s| then [s] else [s[..i]] + Between(s[i + |d|..], d)
  }

  /** The string is put together again with the new text where the old one stood, and no occurrence of
      the old text is left in between. */
  lemma {:induction false} ReplaceMeaning(s: string, was: string, now: string)
    requires was != []
    ensures Join(Between(s, was), was) == s
    ensures Join(Between(s, was), now) == Replace(s, was, now)
    ensures forall i :: 0 <= i < |Between(s, was)| ==> !Contains(Between(s, was)[i], was)
  {
    var i := Find(s, was, 0);
    if i <= |s| {
      var rest := s[i + |was|..];
      ReplaceMeaning(rest, was, now);
      NoneInside(s, was, i);
      FoundSplits(s, was, i);
      hide Find, At, Contains;
      JoinCons(s[..i], Between(rest, was), was);
      JoinCons(s[..i], Between(rest, was), now);
      hide Join;
      assert Between(s, was) == [s[..i]] + Between(rest, was);
    }
  }

  lemma {:induction false} ReplaceLength(s: string, was: string, now: string) returns (n: nat)
    requires was != []
    ensures |Replace(s, was, now)| == |s| + n * (|now| - |was|)
    ensures n == 0 <==> !Contains(s, was)
    ensures n == 0 ==> Replace(s, was, now) == s
    ensures now == was ==> Replace(s, was, now) == s
    ensures n > 0 && Replace(s, was, now) == s ==> now == was
  {
    var i := Find(s, was, 0);
    if i > |s| {
      n := 0;
    } else {
      FoundSplits(s, was, i);
      var rest := s[i + |was|..];
      ReplaceAt(s, was, now, i);
      hide Find, At, Replace;
      var m := ReplaceLength(rest, was, now);
      n := m + 1;
      assert n * (|now| - |was|) == m * (|now| - |was|) + (|now| - |was|);
      if Replace(s, was, now) == s {
        SameLength(n, |now| - |was|);
        assert s[i..i + |was|] == was && (s[..i] + now + Replace(rest, was, now))[i..i + |now|] == now;
      }
    }
  }

  lemma SameLength(n: nat, d: int)
    ensures n > 0 && n * d == 0 ==> d == 0
  {
  }

  /** Replacing changes nothing if and only if the two texts are the same or the old one is nowhere. */
  lemma ReplaceChangesNothing(s: string, was: string, now: string)
    requires was != []
    ensures Replace(s, was, now) == s <==> was == now || !Contains(s, was)
  {
    hide Replace, Contains;
    var n := ReplaceLength(s, was, now);
  }

  // What the name of `replaceIfStarts` promises.
  function ReplaceAtStart(s: string, was: string, now: string): string {
    if was <= s then now + s[|was|..] else s
  }

  /** Only the start is replaced if and only if the two texts are the same or the old one is nowhere else. */
  lemma ReplacesOnlyStart(s: string, was: string, now: string)
    requires was != []
    ensures Replace(s, was, now) == ReplaceAtStart(s, was, now)
            <==> was == now || !Contains(if was <= s then s[|was|..] else s, was)
  {
    hide Replace, Contains;
    if was <= s {
      ReplacePrefix(s, was, now);
      ReplaceChangesNothing(s[|was|..], was, now);
      SameBehind(now, Replace(s[|was|..], was, now), s[|was|..]);
    } else {
      ReplaceChangesNothing(s, was, now);
    }
  }

  lemma ReplacePrefix(s: string, was: string, now: string)
    requires was != [] && was <= s
    ensures Replace(s, was, now) == now + Replace(s[|was|..], was, now)
  {
    assert At(s, was, 0);
    ReplaceAt(s, was, now, 0);
    hide Replace, Find, At;
    assert s[..0] + now == now;
  }

  lemma SameBehind(a: string, b: string, c: string)
    ensures a + b == a + c <==> b == c
  {
    if a + b == a + c {
      assert b == (a + b)[|a|..] == (a + c)[|a|..] == c;
    }
  }

  lemma ReplacesElsewhere()
    ensures Replace("/a/a", "/a", "") == "" && ReplaceAtStart("/a/a", "/a", "") == "/a"
  {
    assert At("/a/a", "/a", 0) && At("/a", "/a", 0);
    ReplaceAt("/a/a", "/a", "", 0);
    assert "/a/a"[2..] == "/a" && "/a"[2..] == "";
    ReplaceAt("/a", "/a", "", 0);
    assert Replace("", "/a", "") == "";
  }

  lemma ReplaceAt(s: string, was: string, now: string, i: nat)
    requires was != [] && i == Find(s, was, 0)
    ensures Replace(s, was, now) == if i > |s| then s else s[..i] + now + Replace(s[i + |was|..], was, now)
  {
    hide Find, At;
  }

  lemma EditCut(done: string, rest: string, was: string, now: string, k: nat)
    requires k + |was| <= |rest|
    ensures var s, i := done + rest, |done| + k;
            s[..i] + now + s[i + |was|..] == (done + rest[..k] + now) + rest[k + |was|..]
  {
  }

  // One turn of the loop: what is before `pos` is done.
  lemma ReplaceNext(done: string, rest: string, was: string, now: string)
    requires was != []
    ensures var s, i := done + rest, Find(done + rest, was, |done|);
            if i > |s| then Replace(rest, was, now) == rest
            else
              && |done| <= i <= |s| - |was|
              && Replace(rest, was, now) == rest[..i - |done|] + now + Replace(rest[i - |done| + |was|..], was, now)
  {
    hide Find, At, Replace;
    FindInRest(done + rest, was, |done|);
    FoundInside(done + rest, was, |done|);
    assert (done + rest)[|done|..] == rest;
    ReplaceAt(rest, was, now, Find(rest, was, 0));
  }

  method ReplaceIfStarts(s: string, was: string, now: string) returns (str: string)
    requires was != []
    ensures str == Replace(s, was, now)
  {
    hide Find, At, Replace;
    str := s;
    var pos := 0;
    ghost var done, rest := "", s;
    var next := Find(str, was, pos);
    while next <= |str|
      invariant str == done + rest && pos == |done| && next == Find(str, was, pos)
      invariant Replace(s, was, now) == done + Replace(rest, was, now)
      decreases |rest|
    {
      ReplaceNext(done, rest, was, now);
      var k := next - pos;
      EditCut(done, rest, was, now, k);
      str := str[..next] + now + str[next + |was|..];
      done, rest := done + rest[..k] + now, rest[k + |was|..];
      pos := next + |now|;
      next := Find(str, was, pos);
    }
    ReplaceNext(done, rest, was, now);
  }

  // ---------------------------------------------------------------- splitting at one character

  predicate Free(s: string, c: char) {
    c !in s
  }

  predicate AllFree(pieces: seq<string>, c: char) {
    forall i :: 0 <= i < |pieces| ==> Free(pieces[i], c)
  }

  // `boost::split` at a character, which keeps every empty piece.
  function SplitAll(s: string, c: char): (r: seq<string>)
    ensures r != []
  {
    var i := Find(s, [c], 0);
    if i > |s| then [s] else [s[..i]] + SplitAll(s[i + 1..], c)
  }

  lemma AtChar(s: string, c: char)
    ensures forall j: nat :: At(s, [c], j) <==> j < |s| && s[j] == c
  {
    forall j: nat
      ensures At(s, [c], j) <==> j < |s| && s[j] == c
    {
      if j < |s| {
        assert s[j..j + |[c]|] == [s[j]];
      }
    }
  }

  lemma FindChar(a: string, c: char, rest: string)
    requires Free(a, c)
    ensures Find(a, [c], 0) > |a|
    ensures Find(a + [c] + rest, [c], 0) == |a|
    ensures (a + [c] + rest)[..|a|] == a && (a + [c] + rest)[|a| + 1..] == rest
  {
    var s := a + [c] + rest;
    AtChar(a, c);
    AtChar(s, c);
    assert At(s, [c], |a|);
  }

  lemma NotFound(s: string, c: char)
    requires Find(s, [c], 0) > |s|
    ensures Free(s, c)
  {
    AtChar(s, c);
  }

  /** Splitting at a character and joining with it are inverse to each other. */
  lemma {:induction false} SplitAllInverse(s: string, c: char)
    ensures AllFree(SplitAll(s, c), c) && Join(SplitAll(s, c), [c]) == s
  {
    var i := Find(s, [c], 0);
    if i > |s| {
      NotFound(s, c);
    } else {
      var rest := s[i + 1..];
      NoneInside(s, [c], i);
      NotFound(s[..i], c);
      SplitAllInverse(rest, c);
      assert SplitAll(s, c)[1..] == SplitAll(rest, c);
      assert s == s[..i] + [c] + rest;
    }
  }

  lemma {:induction false} JoinSplitAll(pieces: seq<string>, c: char)
    requires pieces != [] && AllFree(pieces, c)
    ensures SplitAll(Join(pieces, [c]), c) == pieces
  {
    if |pieces| == 1 {
      FindChar(pieces[0], c, "");
    } else {
      JoinSplitAll(pieces[1..], c);
      SplitAllCons(pieces[0], c, Join(pieces[1..], [c]));
      hide Find, At, SplitAll;
      assert pieces == [pieces[0]] + pieces[1..];
    }
  }

  lemma SplitAllCons(piece: string, c: char, rest: string)
    requires Free(piece, c)
    ensures SplitAll(piece + [c] + rest, c) == [piece] + SplitAll(rest, c)
  {
    hide Find, At;
    FindChar(piece, c, rest);
  }

  /** `splitStringView` undoes joining when the last of several pieces is not empty. */
  lemma {:induction false} JoinPieces(pieces: seq<string>, c: char)
    requires pieces != [] && AllFree(pieces, c) && pieces[|pieces| - 1] != ""
    ensures Pieces(Join(pieces, [c]), [c]) == pieces
    ensures Split(Join(pieces, [c]), [c]) == pieces
  {
    if |pieces| == 1 {
      FindChar(pieces[0], c, "");
    } else {
      JoinPieces(pieces[1..], c);
      FindChar(pieces[0], c, Join(pieces[1..], [c]));
    }
  }

  /** What stands between the first two delimiters is the second piece, whatever follows; and so is what
      stands behind an only one, unless it is empty. */
  lemma SecondPiece(a: string, c: char, b: string, rest: string)
    requires Free(a, c) && Free(b, c)
    ensures var r := Split(a + [c] + b + [c] + rest, [c]); |r| >= 2 && r[0] == a && r[1] == b
    ensures var r := Split(a + [c] + b, [c]); if b == "" then r == [a] else r == [a, b]
    ensures Split(a, [c]) == [a]
  {
    FirstPiece(a, c, b + [c] + rest);
    FirstPiece(b, c, rest);
    assert a + [c] + (b + [c] + rest) == a + [c] + b + [c] + rest;
    FirstPiece(a, c, b);
    FindChar(b, c, "");
    PiecesNone(b, [c]);
    FindChar(a, c, "");
    hide Find, At, Pieces;
  }

  lemma FirstPiece(a: string, c: char, rest: string)
    requires Free(a, c)
    ensures Contains(a + [c] + rest, [c]) && Pieces(a + [c] + rest, [c]) == [a] + Pieces(rest, [c])
  {
    hide At;
    FindChar(a, c, rest);
    assert (a + [c] + rest)[|a| + |[c]|..] == rest;
  }

  lemma {:induction false} JoinFree(pieces: seq<string>, d: string, c: char)
    requires AllFree(pieces, c) && Free(d, c)
    ensures Free(Join(pieces, d), c)
  {
    if |pieces| > 1 {
      JoinFree(pieces[1..], d, c);
    }
  }

  // ---------------------------------------------------------------- trailing slashes

  // `while (s.back() == '/') s.pop_back()`, on a string that holds another character.
  function StripSlashes(s: string): (r: string)
    ensures r <= s && (r == "" || r[|r| - 1] != '/')
  {
    if s != "" && s[|s| - 1] == '/' then StripSlashes(s[..|s| - 1]) else s
  }

  predicate OnlySlashes(s: string) {
    StripSlashes(s) == ""
  }

  lemma {:induction false} StripMeaning(s: string)
    ensures forall i :: |StripSlashes(s)| <= i < |s| ==> s[i] == '/'
  {
    if s != "" && s[|s| - 1] == '/' {
      StripMeaning(s[..|s| - 1]);
    }
  }

  lemma {:induction false} OnlySlashesMeaning(s: string)
    ensures OnlySlashes(s) <==> forall i :: 0 <= i < |s| ==> s[i] == '/'
  {
    StripMeaning(s);
    if !OnlySlashes(s) {
      var k := |StripSlashes(s)| - 1;
      assert s[k] == StripSlashes(s)[k];
    }
  }

  // ---------------------------------------------------------------- percent-decoding

  function HexValue(c: char): (n: nat)
    ensures n < 16
  {
    if '0' <= c <= '9' then c as int - '0' as int
    else if 'A' <= c <= 'F' then c as int - 'A' as int + 10
    else if 'a' <= c <= 'f' then c as int - 'a' as int + 10
    else 0
  }

  /** A digit has its value, and any other character counts as zero. */
  lemma HexMeaning(c: char, n: nat)
    ensures n < 16 && (c == "0123456789abcdef"[n] || c == "0123456789ABCDEF"[n]) ==> HexValue(c) == n
    ensures c !in "0123456789abcdef" && c !in "0123456789ABCDEF" ==> HexValue(c) == 0
  {
  }

  function Prepend(a: string, r: Option<string>): Option<string> {
    match r
    case None => None
    case Some(b) => Some(a + b)
  }

  // `decodeUrl`.  None stands for reading behind the end of the view, which the source does
  // after a '%' that is not followed by two characters.
  function Decode(s: string): Option<string> {
    if s == "" then Some("")
    else if s[0] != '%' then Prepend([s[0]], Decode(s[1..]))
    else if |s| < 3 then None
    else Prepend([(HexValue(s[1]) * 16 + HexValue(s[2])) as char], Decode(s[3..]))
  }

  lemma PrependTwice(a: string, b: string, r: Option<string>)
    ensures Prepend(a, Prepend(b, r)) == Prepend(a + b, r)
    ensures Prepend("", r) == r
  {
    match r
    case None =>
    case Some(c) =>
      assert a + (b + c) == (a + b) + c;
      assert "" + c == c;
  }

  method DecodeUrl(s: string) returns (r: Option<string>)
    ensures r == Decode(s)
  {
    var src := "";
    var i := 0;
    assert s[0..] == s;
    PrependTwice("", "", Decode(s));
    while i < |s|
      invariant 0 <= i <= |s|
      invariant Decode(s) == Prepend(src, Decode(s[i..]))
    {
      var ch := s[i];
      if ch != '%' {
        assert s[i..][1..] == s[i + 1..];
        PrependTwice(src, [ch], Decode(s[i + 1..]));
        src := src + [ch];
        i := i + 1;
      } else {
        if i + 2 >= |s| {
          return None;
        }
        assert s[i..][3..] == s[i + 3..];
        var c1, c2 := s[i + 1], s[i + 2];
        var byte := (HexValue(c1) * 16 + HexValue(c2)) as char;
        PrependTwice(src, [byte], Decode(s[i + 3..]));
        src := src + [byte];
        i := i + 3;
      }
    }
    assert s[i..] == "" && src + "" == src;
    r := Some(src);
  }

  // What is decoded to one byte: a character that is no '%', or a '%' and any two characters.
  predicate Unit(u: string) {
    (|u| == 1 && u[0] != '%') || (|u| == 3 && u[0] == '%')
  }

  predicate Units(us: seq<string>) {
    forall i :: 0 <= i < |us| ==> Unit(us[i])
  }

  function UnitByte(u: string): char
    requires Unit(u)
  {
    if |u| == 1 then u[0] else (HexValue(u[1]) * 16 + HexValue(u[2])) as char
  }

  function UnitBytes(us: seq<string>): string
    requires Units(us)
  {
    seq(|us|, i requires 0 <= i < |us| => UnitByte(us[i]))
  }

  lemma {:induction false} DecodeUnits(us: seq<string>)
    requires Units(us)
    ensures Decode(Join(us, "")) == Some(UnitBytes(us))
  {
    if us != [] {
      DecodeUnits(us[1..]);
      assert us == [us[0]] + us[1..];
      JoinClosely(us[0], us[1..]);
      UnitBytesCons(us[0], us[1..]);
      hide Join, UnitBytes, UnitByte, Decode;
      DecodeUnit(us[0], Join(us[1..], ""));
    } else {
      assert UnitBytes(us) == "";
    }
  }

  lemma JoinClosely(u: string, us: seq<string>)
    ensures Join([u] + us, "") == u + Join(us, "")
  {
    JoinCons(u, us, "");
    assert "" + Join(us, "") == Join(us, "");
  }

  lemma UnitBytesCons(u: string, us: seq<string>)
    requires Unit(u) && Units(us)
    ensures Units([u] + us) && UnitBytes([u] + us) == [UnitByte(u)] + UnitBytes(us)
  {
  }

  lemma DecodeUnit(u: string, rest: string)
    requires Unit(u)
    ensures Decode(u + rest) == Prepend([UnitByte(u)], Decode(rest))
  {
    assert (u + rest)[|u|..] == rest;
  }

  lemma {:induction false} DecodedUnits(s: string) returns (us: seq<string>)
    requires Decode(s).Some?
    ensures Units(us) && Join(us, "") == s
  {
    if s == "" {
      us := [];
    } else {
      var n := if s[0] == '%' then 3 else 1;
      var rest := DecodedUnits(s[n..]);
      us := [s[..n]] + rest;
      JoinClosely(s[..n], rest);
      assert s == s[..n] + s[n..];
    }
  }

  /** Decoding stays inside the view if and only if the text is made of characters other than '%', and of
      '%' with two characters behind it; each of these gives one byte. */
  lemma DecodeDefined(s: string)
    ensures Decode(s).Some? <==> exists us :: Units(us) && Join(us, "") == s
    ensures forall us :: Units(us) && Join(us, "") == s ==> Decode(s) == Some(UnitBytes(us))
  {
    if Decode(s).Some? {
      var us := DecodedUnits(s);
    }
    forall us | Units(us) && Join(us, "") == s
      ensures Decode(s) == Some(UnitBytes(us))
    {
      DecodeUnits(us);
    }
  }

  /** It leaves the view behind a '%' at the end; but three of them make one byte. */
  lemma DanglingPercent()
    ensures Decode("/%") == None && Decode("%%%") == Some([0 as char])
  {
    assert "/%"[1..] == "%" && Decode("%") == None;
    assert "%%%"[3..] == "" && Decode("%%%"[3..]) == Some("");
    assert [0 as char] + "" == [0 as char];
  }

  // How a byte is written: as itself, or as "%XY" of section 2.1 of RFC 3986 in either case.
  datatype Style = Plain | Upper | Lower

  function HexChar(n: nat, style: Style): char
    requires n < 16
  {
    if n < 10 then (n + '0' as int) as char
    else if style.Lower? then (n - 10 + 'a' as int) as char
    else (n - 10 + 'A' as int) as char
  }

  predicate IsBytes(s: string) {
    forall i :: 0 <= i < |s| ==> s[i] as int < 256
  }

  // A '%' is escaped whatever its style says.
  function EscapeOne(c: char, style: Style): string
    requires c as int < 256
  {
    if style.Plain? && c != '%' then [c]
    else ['%', HexChar(c as int / 16, style), HexChar(c as int % 16, style)]
  }

  function Escape(s: string, styles: seq<Style>): string
    requires |styles| == |s| && IsBytes(s)
  {
    if s == "" then "" else EscapeOne(s[0], styles[0]) + Escape(s[1..], styles[1..])
  }

  /** Decoding undoes escaping, whichever bytes were escaped. */
  lemma {:induction false} DecodeEscape(s: string, styles: seq<Style>)
    requires |styles| == |s| && IsBytes(s)
    ensures Decode(Escape(s, styles)) == Some(s)
  {
    if s != "" {
      DecodeEscape(s[1..], styles[1..]);
      assert Escape(s, styles) == EscapeOne(s[0], styles[0]) + Escape(s[1..], styles[1..]);
      DecodeOne(s[0], styles[0], Escape(s[1..], styles[1..]));
      assert s == [s[0]] + s[1..];
    }
  }

  lemma DecodeOne(c: char, style: Style, rest: string)
    requires c as int < 256
    ensures Decode(EscapeOne(c, style) + rest) == Prepend([c], Decode(rest))
  {
    DecodeUnit(EscapeOne(c, style), rest);
    HexPair(c as int, style);
  }

  lemma HexPair(b: nat, style: Style)
    requires b < 256
    ensures HexValue(HexChar(b / 16, style)) * 16 + HexValue(HexChar(b % 16, style)) == b
  {
    assert forall n: nat :: n < 16 ==> HexValue(HexChar(n, style)) == n;
  }
}
