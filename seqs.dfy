/** The sequence operations of Python's `str` and `bytes` that the core relies
    on: `in`, `split`, `join` and `replace`, written once for any element type. */
module Seqs {

  /** `t` occurs in `s` beginning at index `i`. */
  predicate OccursAt<T(==)>(s: seq<T>, t: seq<T>, i: int)
  {
    0 <= i && i + |t| <= |s| && s[i..i + |t|] == t
  }

  /** Python's `t in s`. */
  predicate Contains<T(==)>(s: seq<T>, t: seq<T>)
  {
    exists i | 0 <= i <= |s| - |t| :: OccursAt(s, t, i)
  }

  /** Python's `sep.join(blocks)`. */
  function Join<T>(blocks: seq<seq<T>>, sep: seq<T>): seq<T>
  {
    if |blocks| == 0 then []
    else if |blocks| == 1 then blocks[0]
    else blocks[0] + sep + Join(blocks[1..], sep)
  }

  /** Python's `s.split(sep)` for a non-empty separator: the leftmost
      non-overlapping occurrences of `sep` cut `s` into blocks. */
  function Split<T(==)>(s: seq<T>, sep: seq<T>): (blocks: seq<seq<T>>)
    requires |sep| > 0
    ensures |blocks| >= 1
    decreases |s|
  {
    if |s| < |sep| then [s]
    else if s[..|sep|] == sep then [[]] + Split(s[|sep|..], sep)
    else
      var rest := Split(s[1..], sep);
      [[s[0]] + rest[0]] + rest[1..]
  }

  /** Python's `s.replace(pat, rep)` for a non-empty pattern: every leftmost
      non-overlapping occurrence of `pat` is replaced by `rep`. */
  function ReplaceAll<T(==)>(s: seq<T>, pat: seq<T>, rep: seq<T>): seq<T>
    requires |pat| > 0
    decreases |s|
  {
    if |s| < |pat| then s
    else if s[..|pat|] == pat then rep + ReplaceAll(s[|pat|..], pat, rep)
    else [s[0]] + ReplaceAll(s[1..], pat, rep)
  }

  /** Gluing an element onto the first block glues it onto the joined result. */
  lemma JoinConsFirst<T>(x: T, blocks: seq<seq<T>>, sep: seq<T>)
    requires |blocks| >= 1
    ensures Join([[x] + blocks[0]] + blocks[1..], sep) == [x] + Join(blocks, sep)
  {
    var b := [[x] + blocks[0]] + blocks[1..];
    assert b[1..] == blocks[1..];
  }

  /** The first block is a prefix of the joined sequence. */
  lemma JoinStartsWithFirst<T>(blocks: seq<seq<T>>, sep: seq<T>)
    requires |blocks| >= 1
    ensures |blocks[0]| <= |Join(blocks, sep)|
    ensures Join(blocks, sep)[..|blocks[0]|] == blocks[0]
  {
  }

  /** Splitting and re-joining with the same separator gives back the input. */
  lemma {:induction false} SplitJoin<T>(s: seq<T>, sep: seq<T>)
    requires |sep| > 0
    ensures Join(Split(s, sep), sep) == s
    decreases |s|
  {
    if |s| < |sep| {
    } else if s[..|sep|] == sep {
      var rest := Split(s[|sep|..], sep);
      SplitJoin(s[|sep|..], sep);
      assert ([[]] + rest)[1..] == rest;
      assert s == sep + s[|sep|..];
    } else {
      var rest := Split(s[1..], sep);
      SplitJoin(s[1..], sep);
      JoinConsFirst(s[0], rest, sep);
      assert s == [s[0]] + s[1..];
    }
  }

  /** No block produced by `Split` contains the separator. */
  lemma {:induction false} SplitBlocksAreFree<T>(s: seq<T>, sep: seq<T>)
    requires |sep| > 0
    ensures forall k :: 0 <= k < |Split(s, sep)| ==> !Contains(Split(s, sep)[k], sep)
    decreases |s|
  {
    var blocks := Split(s, sep);
    if |s| < |sep| {
      assert blocks == [s];
    } else if s[..|sep|] == sep {
      var rest := Split(s[|sep|..], sep);
      SplitBlocksAreFree(s[|sep|..], sep);
      assert blocks == [[]] + rest;
      forall k | 0 <= k < |blocks| ensures !Contains(blocks[k], sep) {
        if k > 0 { assert blocks[k] == rest[k - 1]; }
      }
    } else {
      var rest := Split(s[1..], sep);
      SplitBlocksAreFree(s[1..], sep);
      SplitJoin(s[1..], sep);
      JoinStartsWithFirst(rest, sep);
      assert rest[0] == s[1..|rest[0]| + 1];
      ConsKeepsFree(s, rest[0], sep);
      assert blocks == [[s[0]] + rest[0]] + rest[1..];
      forall k | 0 <= k < |blocks| ensures !Contains(blocks[k], sep) {
        if k > 0 { assert blocks[k] == rest[k]; }
      }
    }
  }

  /** Each cut is the leftmost one: no block but the last, followed by all
      but the last element of the separator, holds the separator. So no
      occurrence of the separator starts inside a block and overlaps the
      cut after it, which together with `SplitJoin` and `SplitBlocksAreFree`
      leaves only one way to cut `s`. */
  lemma {:induction false} SplitLeftmost<T>(s: seq<T>, sep: seq<T>)
    requires |sep| > 0
    ensures forall k :: 0 <= k < |Split(s, sep)| - 1 ==>
              !Contains(Split(s, sep)[k] + sep[..|sep| - 1], sep)
    decreases |s|
  {
    var blocks := Split(s, sep);
    var part := sep[..|sep| - 1];
    if |s| < |sep| {
      assert blocks == [s];
    } else if s[..|sep|] == sep {
      var rest := Split(s[|sep|..], sep);
      SplitLeftmost(s[|sep|..], sep);
      assert blocks == [[]] + rest;
      forall k | 0 <= k < |blocks| - 1 ensures !Contains(blocks[k] + part, sep) {
        if k > 0 {
          assert blocks[k] == rest[k - 1];
        } else {
          assert blocks[k] + part == part;
        }
      }
    } else {
      var rest := Split(s[1..], sep);
      SplitLeftmost(s[1..], sep);
      assert blocks == [[s[0]] + rest[0]] + rest[1..];
      forall k | 0 <= k < |blocks| - 1 ensures !Contains(blocks[k] + part, sep) {
        if k > 0 {
          assert blocks[k] == rest[k];
        } else {
          var b := rest[0] + part;
          SplitJoin(s[1..], sep);
          assert Join(rest, sep) == rest[0] + sep + Join(rest[1..], sep);
          assert b == s[1..][..|b|];
          assert b == s[1..|b| + 1];
          ConsKeepsFree(s, b, sep);
          assert blocks[k] + part == [s[0]] + b;
        }
      }
    }
  }

  /** Putting one element in front of a separator-free prefix of `s[1..]`
      keeps it separator-free, provided `s` itself does not begin with the
      separator. */
  lemma ConsKeepsFree<T>(s: seq<T>, b: seq<T>, sep: seq<T>)
    requires |sep| > 0 && |s| >= |sep| && s[..|sep|] != sep
    requires |b| < |s| && b == s[1..|b| + 1]
    requires !Contains(b, sep)
    ensures !Contains([s[0]] + b, sep)
  {
    var b0 := [s[0]] + b;
    assert b0 == s[..|b| + 1];
    forall i | 0 <= i <= |b0| - |sep| ensures !OccursAt(b0, sep, i) {
      if i == 0 {
        assert b0[..|sep|] == s[..|sep|];
      } else {
        assert b[i - 1..i - 1 + |sep|] == b0[i..i + |sep|];
        assert !OccursAt(b, sep, i - 1);
      }
    }
  }

  /** `replace` is the same as splitting on the pattern and joining with the
      replacement. */
  lemma {:induction false} ReplaceIsSplitJoin<T>(s: seq<T>, pat: seq<T>, rep: seq<T>)
    requires |pat| > 0
    ensures ReplaceAll(s, pat, rep) == Join(Split(s, pat), rep)
    decreases |s|
  {
    if |s| < |pat| {
    } else if s[..|pat|] == pat {
      var rest := Split(s[|pat|..], pat);
      ReplaceIsSplitJoin(s[|pat|..], pat, rep);
      assert ([[]] + rest)[1..] == rest;
    } else {
      ReplaceIsSplitJoin(s[1..], pat, rep);
      JoinConsFirst(s[0], Split(s[1..], pat), rep);
    }
  }

  /** A sequence without the pattern is returned unchanged by `replace`. */
  lemma {:induction false} ReplaceWithoutPattern<T>(s: seq<T>, pat: seq<T>, rep: seq<T>)
    requires |pat| > 0
    requires !Contains(s, pat)
    ensures ReplaceAll(s, pat, rep) == s
    decreases |s|
  {
    if |s| >= |pat| {
      assert !OccursAt(s, pat, 0);
      forall i | 0 <= i <= |s[1..]| - |pat| ensures !OccursAt(s[1..], pat, i) {
        assert s[1..][i..i + |pat|] == s[i + 1..i + 1 + |pat|];
        assert !OccursAt(s, pat, i + 1);
      }
      ReplaceWithoutPattern(s[1..], pat, rep);
      assert s == [s[0]] + s[1..];
    }
  }

  /** Until the first element of `rep` shows up, the output of `replace` copies
      its input. */
  lemma {:induction false} ReplaceKeepsPrefix<T>(s: seq<T>, pat: seq<T>, rep: seq<T>, k: nat)
    requires |pat| > 0 && |rep| > 0
    requires k <= |ReplaceAll(s, pat, rep)|
    requires forall j :: 0 <= j < k ==> ReplaceAll(s, pat, rep)[j] != rep[0]
    ensures k <= |s| && s[..k] == ReplaceAll(s, pat, rep)[..k]
    decreases |s|
  {
    var r := ReplaceAll(s, pat, rep);
    if |s| < |pat| || k == 0 {
    } else if s[..|pat|] == pat {
      // r begins with rep[0], so the requires forces k == 0, handled above
      ReplaceAtMatchStartsWithRep(s, pat, rep);
      assert false;
    } else {
      var r' := ReplaceAll(s[1..], pat, rep);
      assert r == [s[0]] + r';
      forall j | 0 <= j < k - 1 ensures r'[j] != rep[0] {
        assert r'[j] == r[j + 1];
      }
      ReplaceKeepsPrefix(s[1..], pat, rep, k - 1);
      assert s[..k] == [s[0]] + s[1..][..k - 1];
      assert r[..k] == [s[0]] + r'[..k - 1];
    }
  }

  lemma ReplaceAtMatchStartsWithRep<T>(s: seq<T>, pat: seq<T>, rep: seq<T>)
    requires |pat| > 0 && |rep| > 0 && |s| >= |pat| && s[..|pat|] == pat
    ensures |ReplaceAll(s, pat, rep)| > 0 && ReplaceAll(s, pat, rep)[0] == rep[0]
  {
  }

  /** When no element of the (non-empty) replacement appears in the pattern,
      `replace` leaves no occurrence of the pattern behind. */
  lemma {:induction false} ReplaceLeavesNoPattern<T>(s: seq<T>, pat: seq<T>, rep: seq<T>)
    requires |pat| > 0 && |rep| > 0
    requires forall j :: 0 <= j < |rep| ==> rep[j] !in pat
    ensures !Contains(ReplaceAll(s, pat, rep), pat)
    decreases |s|
  {
    var r := ReplaceAll(s, pat, rep);
    if |s| < |pat| {
      assert r == s;
    } else if s[..|pat|] == pat {
      var r' := ReplaceAll(s[|pat|..], pat, rep);
      ReplaceLeavesNoPattern(s[|pat|..], pat, rep);
      assert r == rep + r';
      forall i | 0 <= i <= |r| - |pat| ensures !OccursAt(r, pat, i) {
        if i >= |rep| {
          assert r[i..i + |pat|] == r'[i - |rep|..i - |rep| + |pat|];
          assert !OccursAt(r', pat, i - |rep|);
        }
      }
    } else {
      var r' := ReplaceAll(s[1..], pat, rep);
      ReplaceLeavesNoPattern(s[1..], pat, rep);
      assert r == [s[0]] + r';
      forall i | 0 <= i <= |r| - |pat| ensures !OccursAt(r, pat, i) {
        if i == 0 {
          if OccursAt(r, pat, 0) {
            var k := |pat| - 1;
            forall j | 0 <= j < k ensures r'[j] != rep[0] {
              assert r'[j] == pat[j + 1];
              assert rep[0] !in pat;
            }
            ReplaceKeepsPrefix(s[1..], pat, rep, k);
            assert false;
          }
        } else {
          assert r[i..i + |pat|] == r'[i - 1..i - 1 + |pat|];
          assert !OccursAt(r', pat, i - 1);
        }
      }
    }
  }
}
