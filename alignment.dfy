/** What an edit script means: the alignment of a source with a target it
    describes, the characters it consumes, and what it costs. */
module Alignment {
  import opened Types

  /** How many source and target characters a move consumes: every move
      but an insertion one source character, every move but a deletion one
      target character, a transposition two of each. */
  function Width(op: EditType): (nat, nat) {
    match op
    case Delete => (1, 0)
    case Insert => (0, 1)
    case Transpose => (2, 2)
    case _ => (1, 1)
  }

  /** The script entries a move contributes: a transposition is reported as
      two `Transpose` entries, every other move as one entry. */
  function Entries(op: EditType): (e: seq<EditType>)
    ensures |e| == if op == Transpose then 2 else 1
  {
    if op == Transpose then [Transpose, Transpose] else [op]
  }

  /** What a move costs; the two entries of a transposition are charged
      once together. */
  function OpCost(o: Options, op: EditType): nat {
    match op
    case Delete => o.delCost
    case Insert => o.insCost
    case Sub => o.subCost
    case Equal => 0
    case Transpose => o.transpCost
  }

  /** What the move `op` demands of the characters it consumes at the ends
      of `s` and `t`: an equality a pair the options' predicate matches, a
      transposition the last two source characters swapped in the target
      (compared as plain characters). */
  predicate Fits(o: Options, op: EditType, s: seq<char>, t: seq<char>)
    requires Width(op).0 <= |s| && Width(op).1 <= |t|
  {
    && (op == Equal ==> o.equals(s[|s| - 1], t[|t| - 1]))
    && (op == Transpose ==> s[|s| - 1] == t[|t| - 2] && s[|s| - 2] == t[|t| - 1])
  }

  /** The move a non-empty script ends with. */
  function LastMove(script: seq<EditType>): EditType
    requires script != []
  {
    script[|script| - 1]
  }

  /** `script`, applied left to right, turns `s` into `t`: each move
      consumes its characters from the ends of what is left, fits them, and
      the entries before it align the rest. */
  predicate Aligns(o: Options, script: seq<EditType>, s: seq<char>, t: seq<char>)
    decreases |script|, 1
  {
    if script == [] then s == [] && t == [] else LastMoveAligns(o, script, s, t)
  }

  /** The last move of a non-empty script is complete, fits, and leaves a
      prefix that aligns what it leaves of `s` and `t`. */
  predicate LastMoveAligns(o: Options, script: seq<EditType>, s: seq<char>, t: seq<char>)
    requires script != []
    decreases |script|, 0
  {
    var op := LastMove(script);
    var k := |Entries(op)|;
    var (ds, dt) := Width(op);
    && k <= |script| && script[|script| - k..] == Entries(op)
    && ds <= |s| && dt <= |t| && Fits(o, op, s, t)
    && Aligns(o, script[..|script| - k], s[..|s| - ds], t[..|t| - dt])
  }

  /** The cost of a script: the cost of its last move plus that of the
      entries before it. */
  function Cost(o: Options, script: seq<EditType>): nat
    decreases |script|
  {
    if script == [] then 0
    else
      var op := LastMove(script);
      var k := |Entries(op)|;
      if k <= |script| then Cost(o, script[..|script| - k]) + OpCost(o, op) else OpCost(o, op)
  }

  /** How many source characters a script consumes: all entries but
      insertions. */
  function SourceLen(script: seq<EditType>): nat
    decreases |script|
  {
    if script == [] then 0
    else SourceLen(script[..|script| - 1]) + if LastMove(script) == Insert then 0 else 1
  }

  /** How many target characters a script consumes: all entries but
      deletions. */
  function TargetLen(script: seq<EditType>): nat
    decreases |script|
  {
    if script == [] then 0
    else TargetLen(script[..|script| - 1]) + if LastMove(script) == Delete then 0 else 1
  }

  /** A move's entries consume exactly its width. */
  lemma LensAppend(prefix: seq<EditType>, op: EditType)
    ensures SourceLen(prefix + Entries(op)) == SourceLen(prefix) + Width(op).0
    ensures TargetLen(prefix + Entries(op)) == TargetLen(prefix) + Width(op).1
  {
    var script := prefix + Entries(op);
    assert script[..|script| - 1] == prefix + Entries(op)[..|Entries(op)| - 1];
    if op == Transpose {
      assert (prefix + [Transpose])[..|prefix|] == prefix;
    } else {
      assert Entries(op)[..0] == [];
      assert prefix + [] == prefix;
    }
  }

  /** A non-empty alignment is its prefix followed by its last move. */
  lemma LastMoveSplits(o: Options, script: seq<EditType>, s: seq<char>, t: seq<char>)
    requires script != [] && Aligns(o, script, s, t)
    ensures var k := |Entries(LastMove(script))|;
      k <= |script| && script == script[..|script| - k] + Entries(LastMove(script))
  {
    var k := |Entries(LastMove(script))|;
    assert script == script[..|script| - k] + script[|script| - k..];
  }

  /** A valid alignment consumes the whole source and the whole target. */
  lemma {:induction false} AlignsConsumesAll(o: Options, script: seq<EditType>, s: seq<char>, t: seq<char>)
    requires Aligns(o, script, s, t)
    ensures SourceLen(script) == |s| && TargetLen(script) == |t|
    decreases |script|
  {
    if script != [] {
      var op := LastMove(script);
      var prefix := script[..|script| - |Entries(op)|];
      var (ds, dt) := Width(op);
      AlignsConsumesAll(o, prefix, s[..|s| - ds], t[..|t| - dt]);
      LastMoveSplits(o, script, s, t);
      LensAppend(prefix, op);
    }
  }

  /** A script extended by a move ends with that move's entries, after the
      original script. */
  lemma AppendParts(prefix: seq<EditType>, op: EditType)
    ensures var script := prefix + Entries(op);
      && LastMove(script) == op
      && script[..|script| - |Entries(op)|] == prefix
      && script[|script| - |Entries(op)|..] == Entries(op)
  {
  }

  /** Appending a fitting move to an alignment of what the move leaves of
      `s` and `t` aligns all of them. */
  lemma ExtendAligns(o: Options, prefix: seq<EditType>, op: EditType, s: seq<char>, t: seq<char>)
    requires Width(op).0 <= |s| && Width(op).1 <= |t| && Fits(o, op, s, t)
    requires Aligns(o, prefix, s[..|s| - Width(op).0], t[..|t| - Width(op).1])
    ensures Aligns(o, prefix + Entries(op), s, t)
  {
    AppendParts(prefix, op);
  }

  /** Appending a move adds its cost. */
  lemma ExtendCost(o: Options, prefix: seq<EditType>, op: EditType)
    ensures Cost(o, prefix + Entries(op)) == Cost(o, prefix) + OpCost(o, op)
  {
    AppendParts(prefix, op);
  }
}
