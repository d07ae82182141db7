/** Deriving the next search query from a clicked photo's description
    (src/app/page.tsx, lines 127-130): the first three space-separated words,
    or a fixed phrase when that comes out empty. */
module Query {
  import opened Wrappers

  const DefaultQuery: string := "japanese aesthetic"

  const WordLimit: nat := 3

  /** `s.split(" ")`: the fields between single spaces, so two adjacent spaces
      give an empty field and the empty string gives one empty field. */
  function Split(s: string): (fields: seq<string>)
    ensures |fields| >= 1
    ensures forall k :: 0 <= k < |fields| ==> ' ' !in fields[k]
    decreases |s|
  {
    if s == [] then [""]
    else
      var rest := Split(s[1..]);
      if s[0] == ' ' then [""] + rest
      else [[s[0]] + rest[0]] + rest[1..]
  }

  /** `fields.join(" ")`. */
  function Join(fields: seq<string>): string
  {
    if |fields| == 0 then ""
    else if |fields| == 1 then fields[0]
    else fields[0] + " " + Join(fields[1..])
  }

  /** `fields.slice(0, n)`. */
  function Take(fields: seq<string>, n: nat): (prefix: seq<string>)
    ensures |prefix| == if n <= |fields| then n else |fields|
    ensures prefix <= fields
  {
    if n <= |fields| then fields[..n] else fields
  }

  /** The first `n` words of `s`, as the page computes them: nothing for
      `n == 0`, and all of `s` when it has no more than `n` fields. */
  function FirstWords(s: string, n: nat): (words: string)
    ensures n == 0 ==> words == ""
    ensures |Split(s)| <= n ==> words == s
  {
    JoinSplit(s);
    assert n == 0 ==> Take(Split(s), n) == [];
    assert |Split(s)| <= n ==> Take(Split(s), n) == Split(s);
    Join(Take(Split(s), n))
  }

  function SpaceCount(s: string): nat
  {
    if s == [] then 0 else (if s[0] == ' ' then 1 else 0) + SpaceCount(s[1..])
  }

  /** Reference definition: the part of `s` before its `k`-th space, or all
      of `s` when it has fewer than `k` spaces. */
  function BeforeSpace(s: string, k: nat): string
    requires k >= 1
  {
    if s == [] then []
    else if s[0] == ' ' then (if k == 1 then [] else [' '] + BeforeSpace(s[1..], k - 1))
    else [s[0]] + BeforeSpace(s[1..], k)
  }

  /** The query a click on a photo with description `alt` leads to. */
  function DeriveQuery(alt: Option<string>): (q: string)
    ensures q != ""
    ensures alt.None? || alt.value == "" ==> q == DefaultQuery
    ensures alt.Some? && alt.value != "" ==> q == BeforeSpace(alt.value, WordLimit)
  {
    if alt.None? then DefaultQuery
    else
      var words := FirstWords(alt.value, WordLimit);
      FirstWordsBeforeSpace(alt.value, WordLimit);
      if words == "" then DefaultQuery else words
  }

  /** Round trip: joining the fields of a split gives back the string. */
  lemma {:induction false} JoinSplit(s: string)
    ensures Join(Split(s)) == s
    decreases |s|
  {
    if s != [] {
      var rest := Split(s[1..]);
      JoinSplit(s[1..]);
      if s[0] == ' ' {
        assert ([""] + rest)[1..] == rest;
      } else {
        JoinConsChar(s[0], rest);
      }
    }
  }

  /** Prepending a character to the first field prepends it to the join. */
  lemma {:induction false} JoinConsChar(c: char, fields: seq<string>)
    requires |fields| >= 1
    ensures Join([[c] + fields[0]] + fields[1..]) == [c] + Join(fields)
  {
    assert fields == [fields[0]] + fields[1..];
    JoinConsCharSplit(c, fields[0], fields[1..]);
  }

  lemma {:induction false} JoinConsCharSplit(c: char, first: string, rest: seq<string>)
    ensures Join([[c] + first] + rest) == [c] + Join([first] + rest)
  {
    if rest != [] {
      assert ([[c] + first] + rest)[1..] == rest;
      assert ([first] + rest)[1..] == rest;
      var j := Join(rest);
      assert Join([[c] + first] + rest) == ([c] + first) + " " + j;
      assert Join([first] + rest) == first + " " + j;
      assert ([c] + first) + " " + j == [c] + (first + " " + j);
    }
  }

  /** The page's split/slice/join pipeline agrees with the reference
      definition. */
  lemma {:induction false} FirstWordsBeforeSpace(s: string, k: nat)
    requires k >= 1
    ensures FirstWords(s, k) == BeforeSpace(s, k)
    decreases |s|
  {
    if s != [] {
      var rest := Split(s[1..]);
      if s[0] == ' ' {
        assert Split(s) == [""] + rest;
        if k == 1 {
          assert Take(Split(s), k) == [""];
        } else {
          var t := Take(rest, k - 1);
          assert Take(Split(s), k) == [""] + t;
          assert ([""] + t)[1..] == t;
          assert Join([""] + t) == "" + " " + Join(t);
          FirstWordsBeforeSpace(s[1..], k - 1);
          assert BeforeSpace(s, k) == [' '] + BeforeSpace(s[1..], k - 1);
        }
      } else {
        var t := Take(rest, k);
        assert Take(Split(s), k) == [[s[0]] + t[0]] + t[1..];
        JoinConsChar(s[0], t);
        FirstWordsBeforeSpace(s[1..], k);
        assert BeforeSpace(s, k) == [s[0]] + BeforeSpace(s[1..], k);
      }
    }
  }

  /** The reference definition is the longest prefix of `s` with fewer than
      `k` spaces: it is a prefix, it has at most `k - 1` spaces, and it either
      is all of `s` or stops right before a space that would be the `k`-th. */
  lemma {:induction false} BeforeSpaceIsLongestPrefix(s: string, k: nat)
    requires k >= 1
    ensures BeforeSpace(s, k) <= s
    ensures SpaceCount(BeforeSpace(s, k)) <= k - 1
    ensures SpaceCount(s) < k ==> BeforeSpace(s, k) == s
    ensures |BeforeSpace(s, k)| < |s| ==>
      s[|BeforeSpace(s, k)|] == ' ' && SpaceCount(BeforeSpace(s, k)) == k - 1
    decreases |s|
  {
    if s != [] {
      var q := BeforeSpace(s, k);
      if s[0] == ' ' {
        if k > 1 {
          BeforeSpaceIsLongestPrefix(s[1..], k - 1);
          assert q[1..] == BeforeSpace(s[1..], k - 1);
        }
      } else {
        BeforeSpaceIsLongestPrefix(s[1..], k);
        assert q[1..] == BeforeSpace(s[1..], k);
      }
    }
  }

  /** A described photo leads to a query that is a prefix of its description
      with at most two spaces, cut right before the third space if there is
      one; an empty or missing description leads to the default phrase. */
  lemma DeriveQueryShape(alt: Option<string>)
    ensures alt.None? || alt.value == "" ==> DeriveQuery(alt) == DefaultQuery
    ensures alt.Some? && alt.value != "" ==>
      var q := DeriveQuery(alt);
      && q <= alt.value
      && SpaceCount(q) <= 2
      && (SpaceCount(alt.value) <= 2 ==> q == alt.value)
      && (|q| < |alt.value| ==> alt.value[|q|] == ' ' && SpaceCount(q) == 2)
  {
    if alt.Some? && alt.value != "" {
      BeforeSpaceIsLongestPrefix(alt.value, WordLimit);
    }
  }
}
