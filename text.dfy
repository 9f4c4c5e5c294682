/**
 * The string operations the anonymiser relies on, with Python's semantics:
 * `str.endswith`, `str.split(sep)`, `sep.join(parts)` and `str.replace(old, new)`.
 */
module Text {

  /** Python's `s.startswith(prefix)`. */
  predicate StartsWith(s: string, prefix: string)
  {
    |prefix| <= |s| && s[..|prefix|] == prefix
  }

  /** Python's `s.endswith(suffix)`: case-sensitive; the empty suffix matches
      every string. It holds exactly when `s` is its own head followed by `suffix`. */
  predicate EndsWith(s: string, suffix: string): (r: bool)
    ensures r <==> |suffix| <= |s| && s == s[..|s| - |suffix|] + suffix
  {
    |suffix| <= |s| && s[|s| - |suffix|..] == suffix
  }

  /** `tok` occurs somewhere in `s` (Python's `tok in s`); the empty token occurs in every string. */
  predicate Occurs(s: string, tok: string)
  {
    exists i :: 0 <= i <= |s| && StartsWith(s[i..], tok)
  }

  /** Python's `s.split(sep)` for a non-empty separator: the pieces between the
      non-overlapping occurrences of `sep`, found left to right. */
  function SplitOn(s: string, sep: string): (parts: seq<string>)
    requires sep != []
    ensures |parts| >= 1
    decreases |s|
  {
    if StartsWith(s, sep) then [[]] + SplitOn(s[|sep|..], sep)
    else if s == [] then [[]]
    else
      var rest := SplitOn(s[1..], sep);
      [[s[0]] + rest[0]] + rest[1..]
  }

  /** Python's `sep.join(parts)`. */
  function JoinWith(parts: seq<string>, sep: string): string
  {
    if parts == [] then []
    else if |parts| == 1 then parts[0]
    else parts[0] + sep + JoinWith(parts[1..], sep)
  }

  /** Python's `s.replace(tok, rep)` for a non-empty `tok`: every non-overlapping
      occurrence, scanning left to right, is replaced. */
  function ReplaceOccurrences(s: string, tok: string, rep: string): string
    requires tok != []
    decreases |s|
  {
    if StartsWith(s, tok) then rep + ReplaceOccurrences(s[|tok|..], tok, rep)
    else if s == [] then []
    else [s[0]] + ReplaceOccurrences(s[1..], tok, rep)
  }

  /** Python's `s.replace('', rep)`: the empty token matches before every
      character and at the end, so `rep` is inserted at all of those places. */
  function InsertEverywhere(s: string, rep: string): string
  {
    if s == [] then rep else rep + [s[0]] + InsertEverywhere(s[1..], rep)
  }

  /** Python's `s.replace(tok, rep)`: the pieces of the split at `tok` joined
      by `rep`; with an empty token, `rep` joins the single characters and
      stands at both ends. */
  function ReplaceAll(s: string, tok: string, rep: string): (r: string)
    ensures tok != [] ==> r == JoinWith(SplitOn(s, tok), rep)
    ensures tok == [] ==> r == JoinWith([[]] + Chars(s) + [[]], rep)
  {
    if tok == [] then
      EmptyTokenReplace(s, rep);
      InsertEverywhere(s, rep)
    else
      ReplaceIsSplitJoin(s, tok, rep);
      ReplaceOccurrences(s, tok, rep)
  }

  /** The one-character strings of `s`, in order. */
  function Chars(s: string): seq<string>
  {
    if s == [] then [] else [[s[0]]] + Chars(s[1..])
  }

  /** The number of non-overlapping occurrences of `tok` in `s` (Python's `s.count(tok)`). */
  function Count(s: string, tok: string): nat
    requires tok != []
  {
    |SplitOn(s, tok)| - 1
  }

  // ---------------------------------------------------------------------------
  // EndsWith

  /** `EndsWith` agrees with the definition by concatenation, in both directions. */
  lemma EndsWithIff(s: string, suffix: string)
    ensures EndsWith(s, suffix) <==> exists p: string :: p + suffix == s
  {
    if EndsWith(s, suffix) {
      var p := s[..|s| - |suffix|];
      assert p + suffix == s;
    }
    if exists p: string :: p + suffix == s {
      var p: string :| p + suffix == s;
      assert s[|s| - |suffix|..] == suffix;
    }
  }

  // ---------------------------------------------------------------------------
  // Split and join

  /** Joining when the first piece is extended on the left. */
  lemma JoinPrepend(a: string, b: string, rest: seq<string>, sep: string)
    ensures JoinWith([a + b] + rest, sep) == a + JoinWith([b] + rest, sep)
  {
    assert ([a + b] + rest)[1..] == rest;
    assert ([b] + rest)[1..] == rest;
  }

  /** Joining a first piece in front of at least one more. */
  lemma JoinCons(p: string, rest: seq<string>, sep: string)
    requires rest != []
    ensures JoinWith([p] + rest, sep) == p + sep + JoinWith(rest, sep)
  {
    assert ([p] + rest)[0] == p && ([p] + rest)[1..] == rest;
  }

  /** The joined string starts with the first piece. */
  lemma JoinStartsWith(parts: seq<string>, sep: string)
    requires parts != []
    ensures StartsWith(JoinWith(parts, sep), parts[0])
  {
  }

  /** Peeling off the last piece of a join of at least two pieces. */
  lemma {:induction false} JoinLast(parts: seq<string>, sep: string)
    requires |parts| >= 2
    ensures JoinWith(parts, sep) == JoinWith(parts[..|parts| - 1], sep) + sep + parts[|parts| - 1]
    decreases |parts|
  {
    if |parts| == 2 {
      assert parts[..1] == [parts[0]];
    } else {
      var tail := parts[1..];
      JoinLast(tail, sep);
      assert tail[..|tail| - 1] == parts[..|parts| - 1][1..];
      assert parts[..|parts| - 1][0] == parts[0];
    }
  }

  /** Splitting and joining with the same separator gives back the string:
      `sep.join(s.split(sep)) == s`. */
  lemma {:induction false} SplitJoin(s: string, sep: string)
    requires sep != []
    ensures JoinWith(SplitOn(s, sep), sep) == s
    decreases |s|
  {
    if StartsWith(s, sep) {
      SplitJoin(s[|sep|..], sep);
      SplitJoinAtSep(s, sep);
    } else if s != [] {
      SplitJoin(s[1..], sep);
      SplitJoinPastChar(s, sep);
    }
  }

  /** The step of `SplitJoin` where `s` starts with the separator. */
  lemma SplitJoinAtSep(s: string, sep: string)
    requires sep != [] && StartsWith(s, sep)
    requires JoinWith(SplitOn(s[|sep|..], sep), sep) == s[|sep|..]
    ensures JoinWith(SplitOn(s, sep), sep) == s
  {
    var rest := SplitOn(s[|sep|..], sep);
    assert SplitOn(s, sep) == [[]] + rest;
    JoinCons([], rest, sep);
    assert s[..|sep|] == sep;
    assert s == s[..|sep|] + s[|sep|..];
  }

  /** The step of `SplitJoin` where `s` does not start with the separator. */
  lemma SplitJoinPastChar(s: string, sep: string)
    requires sep != [] && s != [] && !StartsWith(s, sep)
    requires JoinWith(SplitOn(s[1..], sep), sep) == s[1..]
    ensures JoinWith(SplitOn(s, sep), sep) == s
  {
    var rest := SplitOn(s[1..], sep);
    assert SplitOn(s, sep) == [[s[0]] + rest[0]] + rest[1..];
    JoinPrepend([s[0]], rest[0], rest[1..], sep);
    assert [rest[0]] + rest[1..] == rest;
    assert s == [s[0]] + s[1..];
  }

  /** The first piece of a split is a prefix of the string. */
  lemma SplitFirstPrefix(s: string, sep: string)
    requires sep != []
    ensures StartsWith(s, SplitOn(s, sep)[0])
  {
    SplitJoin(s, sep);
    JoinStartsWith(SplitOn(s, sep), sep);
  }

  /** No occurrence of the separator starts inside the first piece of a split. */
  lemma {:induction false} SplitNoEarlierSep(s: string, sep: string)
    requires sep != []
    ensures |SplitOn(s, sep)[0]| <= |s|
    ensures forall i :: 0 <= i < |SplitOn(s, sep)[0]| ==> !StartsWith(s[i..], sep)
    decreases |s|
  {
    SplitFirstPrefix(s, sep);
    if !StartsWith(s, sep) && s != [] {
      var rest := SplitOn(s[1..], sep);
      var first := SplitOn(s, sep)[0];
      SplitNoEarlierSep(s[1..], sep);
      assert first == [s[0]] + rest[0];
      forall i | 0 <= i < |first| ensures !StartsWith(s[i..], sep) {
        if i > 0 {
          assert !StartsWith(s[1..][i - 1..], sep);
          assert s[i..] == s[1..][i - 1..];
        }
      }
    }
  }

  /** With more than one piece, the separator follows the first piece and the
      rest of the string splits into the remaining pieces. */
  lemma {:induction false} SplitTail(s: string, sep: string)
    requires sep != []
    ensures var parts := SplitOn(s, sep);
      |parts| >= 2 ==> && |parts[0]| + |sep| <= |s|
                       && StartsWith(s[|parts[0]|..], sep)
                       && SplitOn(s[|parts[0]| + |sep|..], sep) == parts[1..]
    decreases |s|
  {
    var parts := SplitOn(s, sep);
    if StartsWith(s, sep) {
      assert parts == [[]] + SplitOn(s[|sep|..], sep);
      assert s[0..] == s;
    } else if s != [] {
      var rest := SplitOn(s[1..], sep);
      SplitTail(s[1..], sep);
      assert parts == [[s[0]] + rest[0]] + rest[1..];
      if |rest| >= 2 {
        assert s[|parts[0]|..] == s[1..][|rest[0]|..];
        assert s[|parts[0]| + |sep|..] == s[1..][|rest[0]| + |sep|..];
      }
    }
  }

  /** Python's `s.split(sep)` cuts at the leftmost occurrence of the separator:
      the first piece is a prefix of `s` in which no occurrence starts; with
      more than one piece the separator follows it and the remaining pieces
      are the split of what comes after that separator; with one piece, the
      piece is the whole string. Piece by piece, the split therefore cuts at
      every non-overlapping occurrence from left to right. */
  lemma SplitFirstCut(s: string, sep: string)
    requires sep != []
    ensures var parts := SplitOn(s, sep);
      && |parts[0]| <= |s| && s[..|parts[0]|] == parts[0]
      && (forall i :: 0 <= i < |parts[0]| ==> !StartsWith(s[i..], sep))
      && (|parts| == 1 ==> parts[0] == s)
      && (|parts| >= 2 ==> StartsWith(s[|parts[0]|..], sep)
                           && |parts[0]| + |sep| <= |s|
                           && SplitOn(s[|parts[0]| + |sep|..], sep) == parts[1..])
  {
    SplitFirstPrefix(s, sep);
    SplitNoEarlierSep(s, sep);
    SplitTail(s, sep);
    SplitJoin(s, sep);
  }

  /** A piece that extends a separator-free piece by the first character of `s`
      is separator-free, when `s` does not start with the separator. */
  lemma ExtendedPieceFree(s: string, sep: string, piece: string)
    requires s != [] && !StartsWith(s, sep)
    requires StartsWith(s[1..], piece) && !Occurs(piece, sep)
    ensures !Occurs([s[0]] + piece, sep)
  {
    var first := [s[0]] + piece;
    assert StartsWith(s, first);
    forall i | 0 <= i <= |first| ensures !StartsWith(first[i..], sep) {
      if i == 0 {
        if |sep| <= |first| {
          assert first[..|sep|] == s[..|sep|];
        }
      } else {
        assert first[i..] == piece[i - 1..];
      }
    }
  }

  /** No piece of a split contains the separator. */
  lemma {:induction false} SplitPiecesFree(s: string, sep: string)
    requires sep != []
    ensures forall k :: 0 <= k < |SplitOn(s, sep)| ==> !Occurs(SplitOn(s, sep)[k], sep)
    decreases |s|
  {
    assert !Occurs([], sep);
    if StartsWith(s, sep) {
      SplitPiecesFree(s[|sep|..], sep);
    } else if s != [] {
      var rest := SplitOn(s[1..], sep);
      SplitPiecesFree(s[1..], sep);
      SplitJoin(s[1..], sep);
      JoinStartsWith(rest, sep);
      ExtendedPieceFree(s, sep, rest[0]);
    }
  }

  // ---------------------------------------------------------------------------
  // Replace

  /** Replacing a non-empty token is splitting at it and joining the pieces
      with the replacement: `s.replace(tok, rep) == rep.join(s.split(tok))`. */
  lemma {:induction false} ReplaceIsSplitJoin(s: string, tok: string, rep: string)
    requires tok != []
    ensures ReplaceOccurrences(s, tok, rep) == JoinWith(SplitOn(s, tok), rep)
    decreases |s|
  {
    if StartsWith(s, tok) {
      var rest := SplitOn(s[|tok|..], tok);
      ReplaceIsSplitJoin(s[|tok|..], tok, rep);
      assert SplitOn(s, tok) == [[]] + rest;
      JoinCons([], rest, rep);
      assert ReplaceOccurrences(s, tok, rep) == rep + ReplaceOccurrences(s[|tok|..], tok, rep);
    } else if s != [] {
      var rest := SplitOn(s[1..], tok);
      ReplaceIsSplitJoin(s[1..], tok, rep);
      assert SplitOn(s, tok) == [[s[0]] + rest[0]] + rest[1..];
      JoinPrepend([s[0]], rest[0], rest[1..], rep);
      assert [rest[0]] + rest[1..] == rest;
      assert ReplaceOccurrences(s, tok, rep) == [s[0]] + ReplaceOccurrences(s[1..], tok, rep);
    }
  }

  /** Replacing a token by itself changes nothing. */
  lemma ReplaceBySelf(s: string, tok: string)
    ensures ReplaceAll(s, tok, tok) == s
  {
    if tok == [] {
      InsertNothing(s);
    } else {
      SplitJoin(s, tok);
    }
  }

  /** Inserting the empty string everywhere changes nothing. */
  lemma {:induction false} InsertNothing(s: string)
    ensures InsertEverywhere(s, []) == s
    decreases |s|
  {
    if s != [] {
      InsertNothing(s[1..]);
    }
  }

  /** A token that starts the string occurs in it. */
  lemma OccursAtStart(s: string, tok: string)
    ensures StartsWith(s, tok) ==> Occurs(s, tok)
  {
    assert s[0..] == s;
  }

  /** An occurrence in the tail of a string is an occurrence in the string. */
  lemma OccursInTail(s: string, tok: string)
    requires s != []
    ensures Occurs(s[1..], tok) ==> Occurs(s, tok)
  {
    if Occurs(s[1..], tok) {
      var i :| 0 <= i <= |s[1..]| && StartsWith(s[1..][i..], tok);
      assert s[1..][i..] == s[i + 1..];
    }
  }

  /** If the token does not occur, the string is left as it is. */
  lemma {:induction false} ReplaceAbsent(s: string, tok: string, rep: string)
    requires !Occurs(s, tok)
    ensures ReplaceAll(s, tok, rep) == s
    decreases |s|
  {
    OccursAtStart(s, tok);
    if tok != [] && !StartsWith(s, tok) && s != [] {
      OccursInTail(s, tok);
      ReplaceAbsent(s[1..], tok, rep);
    }
  }

  /** Splitting at a leading separator adds one piece; any other leading character adds none. */
  lemma SplitCount(s: string, sep: string)
    requires sep != [] && s != []
    ensures StartsWith(s, sep) ==> Count(s, sep) == Count(s[|sep|..], sep) + 1
    ensures !StartsWith(s, sep) ==> Count(s, sep) == Count(s[1..], sep)
  {
  }

  lemma Distribute(k: int, d: int)
    ensures (k + 1) * d == k * d + d
  {
  }

  /** The length of the result: each replaced occurrence changes the length by `|rep| - |tok|`. */
  lemma {:induction false} ReplaceLength(s: string, tok: string, rep: string)
    requires tok != []
    ensures |ReplaceAll(s, tok, rep)| == |s| + Count(s, tok) * (|rep| - |tok|)
    decreases |s|
  {
    if s == [] {
      assert Count(s, tok) == 0;
    } else if StartsWith(s, tok) {
      var s' := s[|tok|..];
      ReplaceLength(s', tok, rep);
      SplitCount(s, tok);
      Distribute(Count(s', tok), |rep| - |tok|);
    } else {
      ReplaceLength(s[1..], tok, rep);
      SplitCount(s, tok);
    }
  }

  /** Inserting a string everywhere never shortens, and a non-empty insert lengthens. */
  lemma {:induction false} InsertLength(s: string, rep: string)
    ensures |InsertEverywhere(s, rep)| >= |s| + |rep|
    decreases |s|
  {
    if s != [] {
      InsertLength(s[1..], rep);
    }
  }

  /** The string is left unchanged exactly when the token does not occur or is
      replaced by itself (with an empty token, exactly when nothing is inserted). */
  lemma ReplaceFixedIff(s: string, tok: string, rep: string)
    ensures ReplaceAll(s, tok, rep) == s <==> rep == tok || !Occurs(s, tok)
  {
    if rep == tok {
      ReplaceBySelf(s, tok);
    } else if !Occurs(s, tok) {
      ReplaceAbsent(s, tok, rep);
    } else if tok == [] {
      InsertLength(s, rep);
    } else {
      ReplaceChanges(s, tok, rep);
    }
  }

  lemma ProductSign(k: nat, d: int)
    ensures d >= 0 ==> k * d >= 0
    ensures d <= 0 ==> k * d <= 0
  {
  }

  /** Replacing a leading occurrence by a different string changes the string. */
  lemma ReplaceChangesAtStart(s: string, tok: string, rep: string)
    requires tok != [] && rep != tok && StartsWith(s, tok)
    ensures ReplaceAll(s, tok, rep) != s
  {
    var s' := s[|tok|..];
    var r' := ReplaceAll(s', tok, rep);
    assert ReplaceAll(s, tok, rep) == rep + r';
    if |rep| == |tok| {
      assert (rep + r')[..|rep|] == rep;
    } else {
      ReplaceLength(s', tok, rep);
      ProductSign(Count(s', tok), |rep| - |tok|);
      assert |s| == |tok| + |s'|;
    }
  }

  /** A non-empty token that occurs, replaced by anything else, changes the string. */
  lemma {:induction false} ReplaceChanges(s: string, tok: string, rep: string)
    requires tok != [] && rep != tok && Occurs(s, tok)
    ensures ReplaceAll(s, tok, rep) != s
    decreases |s|
  {
    if StartsWith(s, tok) {
      ReplaceChangesAtStart(s, tok, rep);
    } else {
      var i :| 0 <= i <= |s| && StartsWith(s[i..], tok);
      assert i != 0;
      assert s[1..][i - 1..] == s[i..];
      ReplaceChanges(s[1..], tok, rep);
      assert ReplaceAll(s, tok, rep) == [s[0]] + ReplaceAll(s[1..], tok, rep);
    }
  }

  /** With an empty token (Python's `s.replace('', rep)`), `rep` separates every
      character and stands at both ends: the result is `rep.join(['', c1, …, cn, ''])`. */
  lemma EmptyTokenReplace(s: string, rep: string)
    ensures InsertEverywhere(s, rep) == JoinWith([[]] + Chars(s) + [[]], rep)
  {
    InsertIsJoin(s, rep);
    assert ([[]] + Chars(s) + [[]])[1..] == Chars(s) + [[]];
  }

  lemma {:induction false} InsertIsJoin(s: string, rep: string)
    ensures InsertEverywhere(s, rep) == rep + JoinWith(Chars(s) + [[]], rep)
    decreases |s|
  {
    if s == [] {
      assert Chars(s) + [[]] == [[]];
    } else {
      var tail := Chars(s[1..]) + [[]];
      InsertIsJoin(s[1..], rep);
      assert Chars(s) + [[]] == [[s[0]]] + tail;
      JoinCons([s[0]], tail, rep);
      assert InsertEverywhere(s, rep) == rep + [s[0]] + InsertEverywhere(s[1..], rep);
    }
  }
}
