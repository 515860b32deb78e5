/**
 * The parts of java.lang.String that the application relies on: `indexOf`,
 * `contains` and `split` with a separator that has no regular-expression
 * metacharacters (so the pattern matches itself literally).
 */
module JavaStrings {

  /** `sep` occurs in `s` starting at index `i`. */
  predicate OccursAt(s: string, sep: string, i: int)
  {
    0 <= i && i + |sep| <= |s| && s[i..i + |sep|] == sep
  }

  /** Shifting an occurrence by dropping the first character of `s`. */
  lemma OccursAtTail(s: string, sep: string)
    requires |s| > 0
    ensures forall j :: 1 <= j ==> (OccursAt(s, sep, j) <==> OccursAt(s[1..], sep, j - 1))
  {
    forall j | 1 <= j
      ensures OccursAt(s, sep, j) <==> OccursAt(s[1..], sep, j - 1)
    {
      if j + |sep| <= |s| {
        assert s[1..][j - 1..j - 1 + |sep|] == s[j..j + |sep|];
      }
    }
  }

  /** `s.indexOf(sep)`: the first index at which `sep` occurs, or -1 when it does not occur. */
  function IndexOf(s: string, sep: string): (r: int)
    ensures -1 <= r
    ensures r >= 0 ==> OccursAt(s, sep, r)
    ensures forall j :: 0 <= j < r ==> !OccursAt(s, sep, j)
    ensures r == -1 ==> forall j :: !OccursAt(s, sep, j)
    decreases |s|
  {
    if |s| < |sep| then -1
    else if s[..|sep|] == sep then 0
    else
      var r := IndexOf(s[1..], sep);
      OccursAtTail(s, sep);
      assert !OccursAt(s, sep, 0) by { assert s[0..|sep|] == s[..|sep|]; }
      if r < 0 then -1 else r + 1
  }

  /** `s.contains(sep)`. */
  predicate Contains(s: string, sep: string)
  {
    IndexOf(s, sep) >= 0
  }

  /** The text after the first occurrence of `sep` (requires that it occurs). */
  function AfterFirst(s: string, sep: string): string
    requires Contains(s, sep)
  {
    s[IndexOf(s, sep) + |sep|..]
  }

  /** The text up to the first occurrence of `sep`, or all of `s` when it does not occur. */
  function UpToFirst(s: string, sep: string): string
  {
    var i := IndexOf(s, sep);
    if i < 0 then s else s[..i]
  }

  /**
   * The pieces between the successive leftmost, non-overlapping occurrences of
   * `sep`, every piece kept: what `Pattern.split` collects before a limit of 0
   * trims the trailing empty pieces. `k` occurrences give `k + 1` pieces.
   */
  function Pieces(s: string, sep: string): (ps: seq<string>)
    requires |sep| > 0
    ensures |ps| >= 1
    decreases |s|
  {
    var i := IndexOf(s, sep);
    if i < 0 then [s] else [s[..i]] + Pieces(s[i + |sep|..], sep)
  }

  /** The inverse of `Pieces`: the pieces joined with `sep` between them. */
  function Join(ps: seq<string>, sep: string): string
  {
    if |ps| == 0 then ""
    else if |ps| == 1 then ps[0]
    else ps[0] + sep + Join(ps[1..], sep)
  }

  /** Joining a non-empty list with a string in front. */
  lemma JoinCons(h: string, ps: seq<string>, sep: string)
    requires |ps| >= 1
    ensures Join([h] + ps, sep) == h + sep + Join(ps, sep)
  {
    assert ([h] + ps)[1..] == ps;
  }

  /** Splitting loses nothing: joining the pieces back gives the original text. */
  lemma {:induction false} JoinPieces(s: string, sep: string)
    requires |sep| > 0
    ensures Join(Pieces(s, sep), sep) == s
    decreases |s|
  {
    var i := IndexOf(s, sep);
    if i >= 0 {
      var rest := s[i + |sep|..];
      var ps := Pieces(rest, sep);
      JoinPieces(rest, sep);
      assert Pieces(s, sep) == [s[..i]] + ps;
      JoinCons(s[..i], ps, sep);
      assert s == s[..i] + sep + rest by {
        assert OccursAt(s, sep, i);
        assert s == s[..i] + s[i..i + |sep|] + s[i + |sep|..];
      }
    }
  }

  /** A separator whose first character does not occur in `p` does not occur in `p`. */
  lemma NotFoundIn(p: string, sep: string)
    requires |sep| > 0 && sep[0] !in p
    ensures IndexOf(p, sep) == -1
  {
    forall j | 0 <= j < |p| ensures !OccursAt(p, sep, j) {
      if j + |sep| <= |p| {
        assert p[j..j + |sep|][0] == p[j];
      }
    }
  }

  /** A separator is first found right after a prefix that does not contain its first character. */
  lemma FoundAfter(p: string, sep: string, rest: string)
    requires |sep| > 0 && sep[0] !in p
    ensures IndexOf(p + sep + rest, sep) == |p|
  {
    var s := p + sep + rest;
    assert OccursAt(s, sep, |p|) by {
      assert s[|p|..|p| + |sep|] == sep;
    }
    forall j | 0 <= j < |p| ensures !OccursAt(s, sep, j) {
      if j + |sep| <= |s| {
        assert s[j..j + |sep|][0] == s[j] == p[j];
      }
    }
  }

  /**
   * The other direction of the round trip, for a one-character separator:
   * splitting a join of pieces that do not contain the separator gives back the pieces.
   */
  lemma {:induction false} PiecesJoin(ps: seq<string>, c: char)
    requires |ps| >= 1
    requires forall k :: 0 <= k < |ps| ==> c !in ps[k]
    ensures Pieces(Join(ps, [c]), [c]) == ps
  {
    if |ps| == 1 {
      NotFoundIn(ps[0], [c]);
    } else {
      var rest := Join(ps[1..], [c]);
      FoundAfter(ps[0], [c], rest);
      assert (ps[0] + [c] + rest)[..|ps[0]|] == ps[0];
      assert (ps[0] + [c] + rest)[|ps[0]| + 1..] == rest;
      PiecesJoin(ps[1..], c);
      assert ps == [ps[0]] + ps[1..];
    }
  }

  /** `ps` with its trailing empty strings removed (what a limit of 0 does in `split`). */
  function TrimTrailingEmpty(ps: seq<string>): (r: seq<string>)
    ensures |r| <= |ps| && r == ps[..|r|]
    ensures r == [] || r[|r| - 1] != ""
    ensures forall k :: |r| <= k < |ps| ==> ps[k] == ""
  {
    if |ps| == 0 || ps[|ps| - 1] != "" then ps
    else TrimTrailingEmpty(ps[..|ps| - 1])
  }

  /** Trimming keeps more than `k` strings exactly when some string at index `k` or later is non-empty. */
  lemma TrimLongerThan(ps: seq<string>, k: nat)
    ensures |TrimTrailingEmpty(ps)| > k <==> exists j :: k <= j < |ps| && ps[j] != ""
  {
    var r := TrimTrailingEmpty(ps);
    if |r| > k {
      assert ps[|r| - 1] == r[|r| - 1];
    }
  }

  /**
   * `s.split(sep)` for a literal separator (Pattern.split with limit 0): when
   * `sep` does not occur the result is `[s]` unchanged, even when `s` is empty;
   * otherwise the pieces with trailing empty ones removed, which may leave none.
   */
  function Split(s: string, sep: string): seq<string>
    requires |sep| > 0
  {
    if IndexOf(s, sep) < 0 then [s] else TrimTrailingEmpty(Pieces(s, sep))
  }

  /** `s` is made of zero or more copies of `sep` and nothing else. */
  predicate OnlySeparators(s: string, sep: string)
    requires |sep| > 0
    decreases |s|
  {
    s == [] || (|sep| <= |s| && s[..|sep|] == sep && OnlySeparators(s[|sep|..], sep))
  }

  /** Every piece of `s` is empty exactly when `s` is nothing but separators. */
  lemma {:induction false} AllPiecesEmptyIff(s: string, sep: string)
    requires |sep| > 0
    ensures (forall k :: 0 <= k < |Pieces(s, sep)| ==> Pieces(s, sep)[k] == "") <==> OnlySeparators(s, sep)
    decreases |s|
  {
    var i := IndexOf(s, sep);
    if i >= 0 {
      var rest := s[i + |sep|..];
      var ps := Pieces(s, sep);
      assert ps == [s[..i]] + Pieces(rest, sep);
      AllPiecesEmptyIff(rest, sep);
      if i == 0 {
        assert s[..|sep|] == sep;
        assert (forall k :: 0 <= k < |ps| ==> ps[k] == "") <==>
               (forall k :: 0 <= k < |Pieces(rest, sep)| ==> Pieces(rest, sep)[k] == "") by {
          if forall k :: 0 <= k < |Pieces(rest, sep)| ==> Pieces(rest, sep)[k] == "" {
            forall k | 0 <= k < |ps| ensures ps[k] == "" {
              if k > 0 { assert ps[k] == Pieces(rest, sep)[k - 1]; }
            }
          }
          if forall k :: 0 <= k < |ps| ==> ps[k] == "" {
            forall k | 0 <= k < |Pieces(rest, sep)| ensures Pieces(rest, sep)[k] == "" {
              assert ps[k + 1] == Pieces(rest, sep)[k];
            }
          }
        }
      } else {
        assert ps[0] != "";
        assert !OccursAt(s, sep, 0);
        assert s[0..|sep|] == s[..|sep|];
      }
    } else {
      assert Pieces(s, sep) == [s];
      assert !OccursAt(s, sep, 0);
      if s != [] {
        assert s != "";
        assert |sep| <= |s| ==> s[0..|sep|] == s[..|sep|];
        assert !OnlySeparators(s, sep);
        assert Pieces(s, sep)[0] != "";
      }
    }
  }
}
