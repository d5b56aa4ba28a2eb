/**
  Byte-pair coding of symbol names, on values: the token table, what a coded name
  means, greedy replacement of one pair, and the pair counts that drive the choice
  of the next token. The build tool's loops are specified by these functions.
 */
module PairCoding {

  /** One byte of a (possibly compressed) symbol name. */
  type Code = c: int | 0 <= c < 256

  /** A slot of the 256-entry table: free, a character that stands for itself, or a pair. */
  datatype Slot = Unused | Literal | Token(left: Code, right: Code)

  type TokenTable = t: seq<Slot> | |t| == 256 witness seq(256, _ => Unused)

  // ---------- meaning of a coded name ----------

  /** `part` may occur inside the token in slot `whole`: it is a character, or a token made earlier. */
  predicate MayContain(t: TokenTable, whole: Code, part: Code) {
    t[part].Literal? || (t[part].Token? && whole < part)
  }

  /** Tokens are handed out from slot 255 downwards, so a token refers to literals and higher slots only. */
  ghost predicate Layered(t: TokenTable) {
    forall c: Code :: t[c].Token? ==> MayContain(t, c, t[c].left) && MayContain(t, c, t[c].right)
  }

  function Rank(t: TokenTable, c: Code): nat {
    if t[c].Token? then 256 - c else 0
  }

  /** The characters a code stands for; terminates because the table is layered. */
  ghost function ExpandCode(t: TokenTable, c: Code): seq<Code>
    requires Layered(t)
    decreases Rank(t, c)
  {
    match t[c]
    case Unused => []
    case Literal => [c]
    case Token(left, right) => ExpandCode(t, left) + ExpandCode(t, right)
  }

  ghost function Expand(t: TokenTable, s: seq<Code>): seq<Code>
    requires Layered(t)
  {
    if s == [] then [] else ExpandCode(t, s[0]) + Expand(t, s[1..])
  }

  lemma {:induction false} ExpandConcat(t: TokenTable, s: seq<Code>, u: seq<Code>)
    requires Layered(t)
    ensures Expand(t, s + u) == Expand(t, s) + Expand(t, u)
  {
    if s == [] {
      assert s + u == u;
    } else {
      ExpandConcat(t, s[1..], u);
      assert (s + u)[1..] == s[1..] + u;
    }
  }

  lemma ExpandOne(t: TokenTable, c: Code)
    requires Layered(t)
    ensures Expand(t, [c]) == ExpandCode(t, c)
  {
    assert [c][1..] == [];
  }

  lemma ExpandTwo(t: TokenTable, c: Code, d: Code)
    requires Layered(t)
    ensures Expand(t, [c, d]) == ExpandCode(t, c) + ExpandCode(t, d)
  {
    assert [c, d][1..] == [d];
    ExpandOne(t, d);
  }

  /** Every code of `s` has a meaning in `t`. */
  predicate Covered(t: TokenTable, s: seq<Code>) {
    forall k :: 0 <= k < |s| ==> !t[s[k]].Unused?
  }

  lemma {:induction false} LiteralsExpandToThemselves(t: TokenTable, s: seq<Code>)
    requires Layered(t)
    requires forall k :: 0 <= k < |s| ==> t[s[k]].Literal?
    ensures Expand(t, s) == s
  {
    if s != [] {
      LiteralsExpandToThemselves(t, s[1..]);
      assert s == [s[0]] + s[1..];
    }
  }

  /** Only literal characters survive expansion; in particular no NUL does if slot 0 is not literal. */
  lemma {:induction false} ExpansionIsLiteral(t: TokenTable, c: Code)
    requires Layered(t)
    ensures forall k :: 0 <= k < |ExpandCode(t, c)| ==> t[ExpandCode(t, c)[k]].Literal?
    decreases Rank(t, c)
  {
    if t[c].Token? {
      ExpansionIsLiteral(t, t[c].left);
      ExpansionIsLiteral(t, t[c].right);
    }
  }

  // ---------- filling a slot ----------

  /** A new token in a free slot below every token so far keeps the table layered. */
  lemma FillKeepsLayered(t: TokenTable, slot: Code, left: Code, right: Code)
    requires Layered(t) && t[slot].Unused?
    requires forall c: Code :: t[c].Token? ==> slot < c
    requires !t[left].Unused? && !t[right].Unused?
    ensures Layered(t[slot := Token(left, right)])
  {
    var t' := t[slot := Token(left, right)];
    forall c: Code | t'[c].Token?
      ensures MayContain(t', c, t'[c].left) && MayContain(t', c, t'[c].right)
    {
      if c != slot {
        assert MayContain(t, c, t[c].left) && MayContain(t, c, t[c].right);
      }
    }
  }

  lemma {:induction false} FillKeepsCode(t: TokenTable, slot: Code, left: Code, right: Code, c: Code)
    requires Layered(t) && t[slot].Unused? && !t[c].Unused?
    requires Layered(t[slot := Token(left, right)])
    ensures ExpandCode(t[slot := Token(left, right)], c) == ExpandCode(t, c)
    decreases Rank(t, c)
  {
    if t[c].Token? {
      assert MayContain(t, c, t[c].left) && MayContain(t, c, t[c].right);
      FillKeepsCode(t, slot, left, right, t[c].left);
      FillKeepsCode(t, slot, left, right, t[c].right);
    }
  }

  /** Names that only use occupied slots mean the same after a free slot is filled. */
  lemma {:induction false} FillKeepsMeaning(t: TokenTable, slot: Code, left: Code, right: Code, s: seq<Code>)
    requires Layered(t) && t[slot].Unused? && Covered(t, s)
    requires Layered(t[slot := Token(left, right)])
    ensures Expand(t[slot := Token(left, right)], s) == Expand(t, s)
  {
    if s != [] {
      FillKeepsCode(t, slot, left, right, s[0]);
      FillKeepsMeaning(t, slot, left, right, s[1..]);
    }
  }

  // ---------- replacing one pair ----------

  /** Greedy, left-to-right, non-overlapping replacement of `left, right` by `code`. */
  function Replace(s: seq<Code>, left: Code, right: Code, code: Code): (r: seq<Code>)
    ensures |r| <= |s|
  {
    if |s| < 2 then s
    else if s[0] == left && s[1] == right then [code] + Replace(s[2..], left, right, code)
    else [s[0]] + Replace(s[1..], left, right, code)
  }

  predicate PairAt(s: seq<Code>, left: Code, right: Code, k: int) {
    0 <= k < |s| - 1 && s[k] == left && s[k + 1] == right
  }

  ghost predicate NoPair(s: seq<Code>, left: Code, right: Code) {
    forall k :: !PairAt(s, left, right, k)
  }

  ghost predicate FirstPair(s: seq<Code>, left: Code, right: Code, i: int) {
    PairAt(s, left, right, i) && forall k :: 0 <= k < i ==> !PairAt(s, left, right, k)
  }

  lemma {:induction false} ReplaceNothing(s: seq<Code>, left: Code, right: Code, code: Code)
    requires NoPair(s, left, right)
    ensures Replace(s, left, right, code) == s
  {
    if |s| >= 2 {
      assert !PairAt(s, left, right, 0);
      assert forall k :: PairAt(s[1..], left, right, k) ==> PairAt(s, left, right, k + 1);
      ReplaceNothing(s[1..], left, right, code);
    }
  }

  /** The replacement up to and including the first occurrence of the pair. */
  lemma {:induction false} ReplaceFirst(s: seq<Code>, left: Code, right: Code, code: Code, i: nat)
    requires FirstPair(s, left, right, i)
    ensures Replace(s, left, right, code) == s[..i] + [code] + Replace(s[i + 2..], left, right, code)
  {
    var tail := Replace(s[i + 2..], left, right, code);
    if i == 0 {
      assert s[..0] + [code] + tail == [code] + tail;
    } else {
      var u := s[1..];
      FirstPairBehind(s, left, right, i);
      ReplaceFirst(u, left, right, code, i - 1);
      assert u[i + 1..] == s[i + 2..] && s[..i] == [s[0]] + u[..i - 1];
      Prepend(s[0], u[..i - 1], code, tail);
    }
  }

  lemma FirstPairBehind(s: seq<Code>, left: Code, right: Code, i: nat)
    requires FirstPair(s, left, right, i) && i > 0
    ensures FirstPair(s[1..], left, right, i - 1) && !PairAt(s, left, right, 0)
  {
    forall k | 0 <= k < i - 1
      ensures !PairAt(s[1..], left, right, k)
    {
      assert !PairAt(s, left, right, k + 1);
    }
  }

  lemma Prepend(x: Code, a: seq<Code>, code: Code, tail: seq<Code>)
    ensures [x] + (a + [code] + tail) == ([x] + a) + [code] + tail
  {
  }

  /** Writing the token for its pair does not change what the name means. */
  lemma {:induction false} ReplaceKeepsMeaning(t: TokenTable, s: seq<Code>, code: Code)
    requires Layered(t) && t[code].Token?
    ensures Expand(t, Replace(s, t[code].left, t[code].right, code)) == Expand(t, s)
  {
    var left, right := t[code].left, t[code].right;
    if |s| >= 2 {
      if s[0] == left && s[1] == right {
        ReplaceKeepsMeaning(t, s[2..], code);
        assert s[1..][1..] == s[2..];
        assert Expand(t, s) == ExpandCode(t, left) + (ExpandCode(t, right) + Expand(t, s[2..]));
      } else {
        ReplaceKeepsMeaning(t, s[1..], code);
      }
    }
  }

  lemma {:induction false} ReplaceKeepsCovered(t: TokenTable, s: seq<Code>, left: Code, right: Code, code: Code)
    requires Covered(t, s) && !t[code].Unused?
    ensures Covered(t, Replace(s, left, right, code))
  {
    if |s| >= 2 {
      if s[0] == left && s[1] == right {
        ReplaceKeepsCovered(t, s[2..], left, right, code);
      } else {
        ReplaceKeepsCovered(t, s[1..], left, right, code);
      }
    }
  }

  // ---------- what replacement is ----------

  /** The inverse: every `code` becomes its pair again. */
  function Restore(r: seq<Code>, left: Code, right: Code, code: Code): seq<Code> {
    if r == [] then []
    else (if r[0] == code then [left, right] else [r[0]]) + Restore(r[1..], left, right, code)
  }

  /** Replacement loses nothing: with a code that is not in use yet, it can be undone. */
  lemma {:induction false} ReplaceRestores(s: seq<Code>, left: Code, right: Code, code: Code)
    requires code !in s
    ensures Restore(Replace(s, left, right, code), left, right, code) == s
  {
    var r := Replace(s, left, right, code);
    if |s| >= 2 && s[0] == left && s[1] == right {
      ReplaceRestores(s[2..], left, right, code);
      assert r[1..] == Replace(s[2..], left, right, code);
      assert s == [left, right] + s[2..];
    } else if |s| >= 2 {
      ReplaceRestores(s[1..], left, right, code);
      assert r[1..] == Replace(s[1..], left, right, code);
      assert s == [s[0]] + s[1..];
    } else if |s| == 1 {
      assert r[1..] == [] && s == [s[0]];
    }
  }

  /** The first code of a replaced name. */
  lemma ReplaceHead(s: seq<Code>, left: Code, right: Code, code: Code)
    requires s != []
    ensures Replace(s, left, right, code) != []
    ensures Replace(s, left, right, code)[0] == if |s| >= 2 && s[0] == left && s[1] == right then code else s[0]
  {
  }

  lemma NoPairFirst(x: Code, r: seq<Code>, left: Code, right: Code)
    requires NoPair(r, left, right) && (r == [] || x != left || r[0] != right)
    ensures NoPair([x] + r, left, right)
  {
    forall k
      ensures !PairAt([x] + r, left, right, k)
    {
      assert !PairAt(r, left, right, k - 1);
    }
  }

  /** It leaves no pair behind, and of equal codes in a row it takes the leftmost two. */
  lemma {:induction false} ReplaceLeavesNone(s: seq<Code>, left: Code, right: Code, code: Code)
    requires code !in s && code != left && code != right
    ensures NoPair(Replace(s, left, right, code), left, right)
    ensures left == right ==> NoPair(Replace(s, left, right, code), left, code)
  {
    if |s| >= 2 {
      var pair := s[0] == left && s[1] == right;
      var x, rest := if pair then code else s[0], if pair then s[2..] else s[1..];
      var r := Replace(rest, left, right, code);
      ReplaceLeavesNone(rest, left, right, code);
      if rest != [] {
        ReplaceHead(rest, left, right, code);
      }
      NoPairFirst(x, r, left, right);
      if left == right {
        NoPairFirst(x, r, left, code);
      }
    }
  }

  lemma NoPairTail(r: seq<Code>, left: Code, right: Code)
    requires r != [] && NoPair(r, left, right)
    ensures NoPair(r[1..], left, right) && !PairAt(r, left, right, 0)
  {
    forall k
      ensures !PairAt(r[1..], left, right, k)
    {
      assert !PairAt(r, left, right, k + 1);
    }
  }

  lemma RestoreHead(r: seq<Code>, left: Code, right: Code, code: Code)
    requires r != []
    ensures Restore(r, left, right, code) != []
    ensures Restore(r, left, right, code)[0] == if r[0] == code then left else r[0]
  {
  }

  /** These laws single it out: any other name that obeys them is the same name. */
  lemma {:induction false} ReplaceUnique(s: seq<Code>, r: seq<Code>, left: Code, right: Code, code: Code)
    requires code !in s && code != left && code != right && Restore(r, left, right, code) == s
    requires NoPair(r, left, right) && (left == right ==> NoPair(r, left, code))
    ensures r == Replace(s, left, right, code)
  {
    if r != [] {
      var tail := Restore(r[1..], left, right, code);
      NoPairTail(r, left, right);
      if left == right {
        NoPairTail(r, left, code);
      }
      if r[0] == code {
        assert s == [left, right] + tail;
        assert s[2..] == tail;
      } else {
        assert s == [r[0]] + tail;
        assert s[1..] == tail;
        if |r| >= 2 {
          RestoreHead(r[1..], left, right, code);
        }
      }
      ReplaceUnique(tail, r[1..], left, right, code);
    }
  }

  // ---------- pair counts ----------

  /** How often `left` is directly followed by `right` in `s` (overlaps counted). */
  function PairCount(s: seq<Code>, left: Code, right: Code): nat {
    if |s| < 2 then 0
    else PairCount(s[..|s| - 1], left, right)
         + (if s[|s| - 2] == left && s[|s| - 1] == right then 1 else 0)
  }

  function TotalCount(names: seq<seq<Code>>, left: Code, right: Code): nat {
    if names == [] then 0
    else TotalCount(names[..|names| - 1], left, right) + PairCount(names[|names| - 1], left, right)
  }

  lemma {:induction false} TotalCountUpdate(names: seq<seq<Code>>, i: nat, s: seq<Code>, left: Code, right: Code)
    requires i < |names|
    ensures TotalCount(names[i := s], left, right)
         == TotalCount(names, left, right) - PairCount(names[i], left, right) + PairCount(s, left, right)
  {
    var n := |names| - 1;
    if i < n {
      TotalCountUpdate(names[..n], i, s, left, right);
      assert names[i := s][..n] == names[..n][i := s];
    } else {
      assert names[i := s][..n] == names[..n];
    }
  }

  /** The places where a pair stands in a name ... */
  function Places(s: seq<Code>, left: Code, right: Code): set<nat> {
    set k: nat {:trigger s[k]} | k < |s| - 1 && s[k] == left && s[k + 1] == right
  }

  /** ... and in a list of names: the name and the place in it. */
  function Occurrences(names: seq<seq<Code>>, left: Code, right: Code): set<(nat, nat)> {
    set i: nat, k: nat {:trigger names[i][k]} |
      i < |names| && k < |names[i]| - 1 && names[i][k] == left && names[i][k + 1] == right :: (i, k)
  }

  /** The count is the number of places. */
  lemma {:induction false} PairCountIs(s: seq<Code>, left: Code, right: Code)
    ensures PairCount(s, left, right) == |set k: nat {:trigger s[k]} | k < |s| - 1 && s[k] == left && s[k + 1] == right|
  {
    if |s| < 2 {
      assert Places(s, left, right) == {};
    } else {
      var n := |s| - 2;
      var u := s[..n + 1];
      PairCountIs(u, left, right);
      if s[n] == left && s[n + 1] == right {
        assert Places(s, left, right) == Places(u, left, right) + {n};
      } else {
        assert Places(s, left, right) == Places(u, left, right);
      }
    }
  }

  function InName(i: nat, places: set<nat>): set<(nat, nat)> {
    set k | k in places :: (i, k)
  }

  lemma {:induction false} InNameSize(i: nat, places: set<nat>)
    ensures |InName(i, places)| == |places|
  {
    if places != {} {
      var x :| x in places;
      InNameSize(i, places - {x});
      assert InName(i, places) == InName(i, places - {x}) + {(i, x)};
    } else {
      assert InName(i, places) == {};
    }
  }

  /** The count over all names is the number of occurrences. */
  lemma {:induction false} TotalCountIs(names: seq<seq<Code>>, left: Code, right: Code)
    ensures TotalCount(names, left, right) == |Occurrences(names, left, right)|
  {
    if names == [] {
      assert Occurrences(names, left, right) == {};
    } else {
      var n := |names| - 1;
      var init, last := names[..n], names[n];
      TotalCountIs(init, left, right);
      PairCountIs(last, left, right);
      InNameSize(n, Places(last, left, right));
      OccurrencesLast(init, last, left, right);
      assert names == init + [last];
      assert Occurrences(init, left, right) !! InName(n, Places(last, left, right));
    }
  }

  lemma OccurrencesLast(init: seq<seq<Code>>, last: seq<Code>, left: Code, right: Code)
    ensures Occurrences(init + [last], left, right)
         == Occurrences(init, left, right) + InName(|init|, Places(last, left, right))
  {
    var names := init + [last];
    forall i: nat, k: nat
      ensures (i, k) in Occurrences(names, left, right)
         <==> (i, k) in Occurrences(init, left, right) || (i, k) in InName(|init|, Places(last, left, right))
    {
      if i < |init| {
        assert names[i] == init[i];
      }
    }
  }

  lemma {:induction false} PairCountPositive(s: seq<Code>, left: Code, right: Code)
    ensures PairCount(s, left, right) > 0 <==> exists k :: PairAt(s, left, right, k)
  {
    if |s| >= 2 {
      var u := s[..|s| - 1];
      PairCountPositive(u, left, right);
      assert forall k :: PairAt(u, left, right, k) ==> PairAt(s, left, right, k);
      assert forall k :: PairAt(s, left, right, k) ==> k == |s| - 2 || PairAt(u, left, right, k);
      if s[|s| - 2] == left && s[|s| - 1] == right {
        assert PairAt(s, left, right, |s| - 2);
      }
    }
  }

  lemma {:induction false} TotalCountPositive(names: seq<seq<Code>>, left: Code, right: Code)
    ensures TotalCount(names, left, right) > 0
       <==> exists i :: 0 <= i < |names| && PairCount(names[i], left, right) > 0
  {
    if names != [] {
      var u := names[..|names| - 1];
      TotalCountPositive(u, left, right);
      if i :| 0 <= i < |u| && PairCount(u[i], left, right) > 0 {
        assert PairCount(names[i], left, right) > 0;
      }
    }
  }

  /** When no pair is left anywhere, no name has two codes. */
  lemma NothingLeftToPair(names: seq<seq<Code>>)
    requires forall left: Code, right: Code :: TotalCount(names, left, right) == 0
    ensures forall i :: 0 <= i < |names| ==> |names[i]| <= 1
  {
    forall i | 0 <= i < |names| ensures |names[i]| <= 1 {
      if |names[i]| > 1 {
        var left, right := names[i][0], names[i][1];
        assert PairAt(names[i], left, right, 0);
        PairCountPositive(names[i], left, right);
        TotalCountPositive(names, left, right);
      }
    }
  }
}
