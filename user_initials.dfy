/** The avatar text of the session widget: `name?.split(" ").map(n => n[0]).join("")`.
    A name is split at every space; each segment contributes its first
    character, and an empty segment contributes `undefined`, which `join`
    renders as the empty string. A nullish name yields `undefined`. */
module UserInitials {
  import opened Common

  /** The number of space characters in `s`. */
  function Spaces(s: string): nat
  {
    if s == [] then 0 else (if s[0] == ' ' then 1 else 0) + Spaces(s[1..])
  }

  /** `s.split(" ")`: the space-free pieces between the spaces of `s`, empty
      pieces included (before a leading space, after a trailing one, between
      two adjacent ones); the empty string splits into one empty piece. */
  function Split(s: string): (r: seq<string>)
    ensures |r| == Spaces(s) + 1
    ensures forall k :: 0 <= k < |r| ==> ' ' !in r[k]
  {
    if s == [] then [[]]
    else
      var rest := Split(s[1..]);
      if s[0] == ' ' then [[]] + rest
      else [[s[0]] + rest[0]] + rest[1..]
  }

  /** `segs.join(" ")`. */
  function JoinWithSpace(segs: seq<string>): string
  {
    if segs == [] then []
    else if |segs| == 1 then segs[0]
    else segs[0] + " " + JoinWithSpace(segs[1..])
  }

  /** `n[0]`: the first character of a segment, `undefined` when it is empty. */
  function FirstChar(n: string): (r: Option<char>)
    ensures r.Some? <==> n != []
    ensures r.Some? ==> r.value == n[0]
  {
    if n == [] then None else Some(n[0])
  }

  /** `segs.map(n => n[0])`. */
  function Heads(segs: seq<string>): (r: seq<Option<char>>)
    ensures |r| == |segs|
    ensures forall k :: 0 <= k < |segs| ==> r[k] == FirstChar(segs[k])
  {
    seq(|segs|, k requires 0 <= k < |segs| => FirstChar(segs[k]))
  }

  /** `xs.join("")`, where an `undefined` element renders as the empty string. */
  function JoinChars(xs: seq<Option<char>>): (r: string)
    ensures |r| <= |xs|
    ensures forall k :: 0 <= k < |r| ==> Some(r[k]) in xs
  {
    if xs == [] then []
    else (match xs[0] case None => [] case Some(c) => [c]) + JoinChars(xs[1..])
  }

  /** The initials of a present name. */
  function InitialsOf(s: string): (r: string)
    ensures |r| <= Spaces(s) + 1
    ensures forall k :: 0 <= k < |r| ==> r[k] != ' '
  {
    JoinChars(Heads(Split(s)))
  }

  /** `getUserInitials(name)`: `undefined` for a nullish name, otherwise the
      joined first characters of its segments. */
  function Initials(name: Option<string>): (r: Option<string>)
    ensures r.None? <==> name.None?
    ensures name.Some? ==> r.value == InitialsOf(name.value)
  {
    match name
    case None => None
    case Some(s) => Some(InitialsOf(s))
  }

  /** Reference definition that does not split: the non-space characters of
      `s` that stand at a word start, i.e. at the beginning (when
      `afterSpace` holds) or right after a space. */
  function WordStarts(s: string, afterSpace: bool): string
  {
    if s == [] then []
    else (if s[0] != ' ' && afterSpace then [s[0]] else []) + WordStarts(s[1..], s[0] == ' ')
  }

  // ---------------------------------------------------------------------
  // Splitting and joining

  /** Joining the pieces with spaces gives back the string. */
  lemma {:induction false} JoinSplit(s: string)
    ensures JoinWithSpace(Split(s)) == s
  {
    if s != [] {
      var rest := Split(s[1..]);
      JoinSplit(s[1..]);
      if s[0] == ' ' {
        assert Split(s) == [[]] + rest;
      } else {
        var r := Split(s);
        assert r[0] == [s[0]] + rest[0] && r[1..] == rest[1..];
        if |rest| == 1 {
          assert JoinWithSpace(r) == [s[0]] + rest[0];
        } else {
          assert JoinWithSpace(rest) == rest[0] + " " + JoinWithSpace(rest[1..]);
          assert JoinWithSpace(r) == r[0] + " " + JoinWithSpace(r[1..]);
        }
      }
    }
  }

  /** A string without spaces is a single piece. */
  lemma {:induction false} SplitWithoutSpace(s: string)
    requires ' ' !in s
    ensures Split(s) == [s]
  {
    if s != [] {
      assert s[0] != ' ' && ' ' !in s[1..];
      SplitWithoutSpace(s[1..]);
      assert [s[0]] + s[1..] == s;
    }
  }

  /** One step of `Split`: a leading space starts a new empty piece, any
      other character is prepended to the first piece. */
  lemma SplitCons(c: char, t: string)
    ensures Split([c] + t) ==
              if c == ' ' then [[]] + Split(t)
              else [[c] + Split(t)[0]] + Split(t)[1..]
  {
    assert ([c] + t)[0] == c && ([c] + t)[1..] == t;
  }

  /** Splitting at one space concatenates the pieces of the two sides. */
  lemma {:induction false} SplitAtSpace(a: string, b: string)
    ensures Split(a + " " + b) == Split(a) + Split(b)
  {
    if a == [] {
      assert a + " " + b == [' '] + b;
      SplitCons(' ', b);
    } else {
      var c, t := a[0], a[1..];
      assert a == [c] + t;
      assert a + " " + b == [c] + (t + " " + b);
      SplitAtSpace(t, b);
      SplitAtSpaceStep(c, t, t + " " + b, Split(b));
    }
  }

  /** The inductive step of `SplitAtSpace`: prepending one character to two
      strings whose pieces differ by a common suffix `rb` keeps that suffix. */
  lemma SplitAtSpaceStep(c: char, t: string, u: string, rb: seq<string>)
    requires Split(u) == Split(t) + rb
    ensures Split([c] + u) == Split([c] + t) + rb
  {
    SplitCons(c, u);
    SplitCons(c, t);
    PrependKeepsSuffix(c, Split(t), rb, Split([c] + u), Split([c] + t));
  }

  /** The sequence algebra of that step, away from the definition of `Split`. */
  lemma PrependKeepsSuffix(c: char, rt: seq<string>, rb: seq<string>, r1: seq<string>, r2: seq<string>)
    requires |rt| >= 1
    requires r1 == if c == ' ' then [[]] + (rt + rb) else [[c] + (rt + rb)[0]] + (rt + rb)[1..]
    requires r2 == if c == ' ' then [[]] + rt else [[c] + rt[0]] + rt[1..]
    ensures r1 == r2 + rb
  {
    if c != ' ' {
      assert (rt + rb)[0] == rt[0];
      assert (rt + rb)[1..] == rt[1..] + rb;
    }
  }

  /** Splitting undoes joining, for at least one piece and pieces without spaces. */
  lemma {:induction false} SplitJoin(segs: seq<string>)
    requires |segs| >= 1
    requires forall k :: 0 <= k < |segs| ==> ' ' !in segs[k]
    ensures Split(JoinWithSpace(segs)) == segs
  {
    SplitWithoutSpace(segs[0]);
    if |segs| > 1 {
      SplitJoin(segs[1..]);
      SplitAtSpace(segs[0], JoinWithSpace(segs[1..]));
      assert segs == [segs[0]] + segs[1..];
    }
  }

  // ---------------------------------------------------------------------
  // Mapping and joining the heads

  lemma {:induction false} JoinCharsAppend(xs: seq<Option<char>>, ys: seq<Option<char>>)
    ensures JoinChars(xs + ys) == JoinChars(xs) + JoinChars(ys)
  {
    if xs == [] {
      assert xs + ys == ys;
    } else {
      assert (xs + ys)[0] == xs[0] && (xs + ys)[1..] == xs[1..] + ys;
      JoinCharsAppend(xs[1..], ys);
    }
  }

  lemma HeadsAppend(a: seq<string>, b: seq<string>)
    ensures Heads(a + b) == Heads(a) + Heads(b)
  {
  }

  // ---------------------------------------------------------------------
  // Properties of the initials

  /** A non-empty name without spaces yields exactly its first character. */
  lemma InitialsSingleWord(s: string)
    requires s != [] && ' ' !in s
    ensures Initials(Some(s)) == Some([s[0]])
  {
    SplitWithoutSpace(s);
    assert Heads([s]) == [Some(s[0])];
    var one: seq<Option<char>> := [Some(s[0])];
    assert one[1..] == [];
    assert JoinChars(one) == [s[0]];
  }

  /** The initials of two names joined by a space are the initials of the
      first followed by the initials of the second. */
  lemma InitialsAtSpace(a: string, b: string)
    ensures InitialsOf(a + " " + b) == InitialsOf(a) + InitialsOf(b)
  {
    SplitAtSpace(a, b);
    HeadsAppend(Split(a), Split(b));
    JoinCharsAppend(Heads(Split(a)), Heads(Split(b)));
  }

  /** The split-based initials are the word starts of the name: the first
      character of every non-empty piece, in order; empty pieces from
      leading, trailing or doubled spaces contribute nothing. The second
      conclusion covers all pieces after the first. */
  lemma {:induction false} InitialsAreWordStarts(s: string)
    ensures InitialsOf(s) == WordStarts(s, true)
    ensures JoinChars(Heads(Split(s)[1..])) == WordStarts(s, false)
  {
    if s != [] {
      InitialsAreWordStarts(s[1..]);
      var rest := Split(s[1..]);
      var r := Split(s);
      if s[0] == ' ' {
        assert r == [[]] + rest && r[1..] == rest;
        assert Heads(r) == [None] + Heads(rest);
      } else {
        assert r[1..] == rest[1..];
        assert Heads(r) == [Some(s[0])] + Heads(r[1..]);
      }
    }
  }

  /** Every initial is a non-space character of the name. */
  lemma {:induction false} WordStartsAreNonSpace(s: string, afterSpace: bool)
    ensures forall k :: 0 <= k < |WordStarts(s, afterSpace)| ==>
              WordStarts(s, afterSpace)[k] != ' ' && WordStarts(s, afterSpace)[k] in s
  {
    if s != [] {
      WordStartsAreNonSpace(s[1..], s[0] == ' ');
      var w := WordStarts(s, afterSpace);
      var first: string := if s[0] != ' ' && afterSpace then [s[0]] else [];
      assert w == first + WordStarts(s[1..], s[0] == ' ');
      forall k | 0 <= k < |w| ensures w[k] != ' ' && w[k] in s {
        if k >= |first| {
          assert w[k] == WordStarts(s[1..], s[0] == ' ')[k - |first|];
          assert w[k] in s[1..];
        }
      }
    }
  }
}
