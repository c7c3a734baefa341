/** The colour-stop extraction of a gradient value. `getBackgroundStyle` in
    EditorCanvas.tsx and `getGradientBackground` in ControlsSidebar.tsx carry the
    same extraction, the same code up to the name of the value variable, so it
    is stated once here; the two callers are in the modules EditorCanvas and
    ControlsSidebar.

    A stop is written either in brackets (`from-[#f5f0e8]`), taken verbatim, or as a
    bare Tailwind token (`from-blue-100`), looked up by colour family. */
module GradientStops {
  import opened Wrappers
  import opened Text

  datatype Side = From | To

  /** The prefix that introduces a stop: "from-" or "to-". */
  function Key(side: Side): string {
    if side == From then "from-" else "to-"
  }

  /** The ivory pair a stop keeps when nothing in the value overrides it. */
  function DefaultStop(side: Side): string {
    if side == From then "#f5f0e8" else "#e6d9c2"
  }

  datatype Family = Family(name: string, fromColor: string, toColor: string)

  /** The colour families in the order the if/else-if chains test them. */
  const Families: seq<Family> := [
    Family("blue", "#dbeafe", "#bfdbfe"),
    Family("pink", "#fbcfe8", "#f9a8d4"),
    Family("green", "#d1fae5", "#a7f3d0"),
    Family("orange", "#ffedd5", "#fdba74"),
    Family("purple", "#ede9fe", "#ddd6fe"),
    Family("indigo", "#e0e7ff", "#c7d2fe"),
    Family("cyan", "#cffafe", "#a5f3fc"),
    Family("rose", "#ffe4e6", "#fda4af"),
    Family("yellow", "#fef9c3", "#fde68a")
  ]

  function FamilyColor(f: Family, side: Side): string {
    if side == From then f.fromColor else f.toColor
  }

  /** The first family, from index `from` on, whose name occurs in the token. */
  function FamilyIndex(token: string, from: nat): (r: Option<nat>)
    decreases |Families| - from
    ensures r.Some? ==> from <= r.value < |Families| && Contains(token, Families[r.value].name)
    ensures r.Some? ==> forall k :: from <= k < r.value ==> !Contains(token, Families[k].name)
    ensures r.None? ==> forall k :: from <= k < |Families| ==> !Contains(token, Families[k].name)
  {
    if from >= |Families| then None
    else if Contains(token, Families[from].name) then Some(from)
    else FamilyIndex(token, from + 1)
  }

  /** The colour a bare token gives: its first family's colour, else the default. */
  function FamilyStop(token: string, side: Side): string {
    match FamilyIndex(token, 0)
    case Some(k) => FamilyColor(Families[k], side)
    case None => DefaultStop(side)
  }

  /** The token's family is family k when k's name is the first one it contains. */
  lemma FirstContainedFamily(token: string, k: nat)
    requires k < |Families| && Contains(token, Families[k].name)
    requires forall j :: 0 <= j < k ==> !Contains(token, Families[j].name)
    ensures FamilyIndex(token, 0) == Some(k)
  {
  }

  /** The token's family is family k when k's name occurs in it and every earlier
      name lacks a character the token lacks; `miss[j]` names that character of
      family j. */
  lemma FirstFamily(token: string, k: nat, miss: seq<nat>)
    requires k < |Families| && |miss| == k
    requires Contains(token, Families[k].name)
    requires forall j :: 0 <= j < k ==> miss[j] < |Families[j].name| && Families[j].name[miss[j]] !in token
    ensures FamilyIndex(token, 0) == Some(k)
  {
    forall j | 0 <= j < k ensures !Contains(token, Families[j].name) {
      MissingCharNotContained(token, Families[j].name, miss[j]);
    }
  }

  /** A token that lacks a character of every family name has no family. */
  lemma NoFamily(token: string, miss: seq<nat>)
    requires |miss| == |Families|
    requires forall j :: 0 <= j < |Families| ==> miss[j] < |Families[j].name| && Families[j].name[miss[j]] !in token
    ensures FamilyIndex(token, 0) == None
  {
    forall j | 0 <= j < |Families| ensures !Contains(token, Families[j].name) {
      MissingCharNotContained(token, Families[j].name, miss[j]);
    }
  }

  /** The stop a bracketed value gives: the text of the first `key[...]`, unless empty or unclosed. */
  function BracketedStop(value: string, side: Side): string {
    match LazyGroup(value, Key(side) + "[", ']')
    case Some(c) => if c != "" then c else DefaultStop(side)
    case None => DefaultStop(side)
  }

  /** The stop a bare token gives: the family of the first `key<token>`. */
  function TokenStopOf(value: string, side: Side): string {
    match TokenGroup(value, Key(side))
    case Some(token) => FamilyStop(token, side)
    case None => DefaultStop(side)
  }

  /** The colour of one stop of a gradient value. A bracketed stop wins over a bare
      token; an empty or unterminated bracket keeps the default. */
  function ResolveStop(value: string, side: Side): string {
    if Contains(value, Key(side) + "[") then BracketedStop(value, side)
    else if Contains(value, Key(side)) then TokenStopOf(value, side)
    else DefaultStop(side)
  }

  /** The CSS both callers build from the two stops. */
  function LinearGradient(fromColor: string, toColor: string): string {
    "linear-gradient(to right, " + fromColor + ", " + toColor + ")"
  }

  /** The encoding the editor writes for an explicit pair of colours. */
  function BracketPair(fromColor: string, toColor: string): string {
    "from-[" + fromColor + "] to-[" + toColor + "]"
  }

  /** A colour that can stand between brackets and be read back whole. */
  predicate IsBracketable(c: string) {
    c != "" && '[' !in c && ']' !in c && forall m :: 0 <= m < |c| ==> !IsLineTerminator(c[m])
  }

  // ---------------------------------------------------------------------------
  // Properties of one stop

  /** A value without the stop's key keeps the default for that stop. */
  lemma StopWithoutKey(value: string, side: Side)
    requires !Contains(value, Key(side))
    ensures ResolveStop(value, side) == DefaultStop(side)
  {
    if Contains(value, Key(side) + "[") {
      ContainsPrefixOfPattern(value, Key(side), "[");
    }
  }

  /** The bracket extraction of a value that opens with `key[c]`. */
  lemma BracketedFront(side: Side, c: string, rest: string)
    requires ']' !in c && forall m :: 0 <= m < |c| ==> !IsLineTerminator(c[m])
    ensures BracketedStop(Key(side) + "[" + c + "]" + rest, side) == if c != "" then c else DefaultStop(side)
  {
    LazyGroupFront(Key(side) + "[", c, ']', rest);
  }

  /** A value carrying the bracketed key resolves to the text of its first bracket
      when that text is non-empty. */
  lemma ResolveBracketed(value: string, side: Side, c: string)
    requires Contains(value, Key(side) + "[")
    requires LazyGroup(value, Key(side) + "[", ']') == Some(c) && c != ""
    ensures ResolveStop(value, side) == c
  {
  }

  /** A bracketed stop at the front yields the bracketed text verbatim; an empty
      bracket keeps the default. */
  lemma BracketStop(side: Side, c: string, rest: string)
    requires ']' !in c && forall m :: 0 <= m < |c| ==> !IsLineTerminator(c[m])
    ensures ResolveStop(Key(side) + "[" + c + "]" + rest, side) == if c != "" then c else DefaultStop(side)
  {
    ContainsFront(Key(side) + "[", c, "]", rest);
    BracketedFront(side, c, rest);
  }

  /** A bracket that is never closed keeps the default. */
  lemma UnterminatedBracketStop(side: Side, c: string)
    requires ']' !in c
    ensures ResolveStop(Key(side) + "[" + c, side) == DefaultStop(side)
  {
    var v := Key(side) + "[" + c;
    assert ']' !in v by {
      assert v == Key(side) + "[" + c;
    }
    LazyGroupUnclosed(v, Key(side) + "[", ']');
    OccursAtJoin("", Key(side) + "[", c);
    assert "" + (Key(side) + "[") + c == v;
    ContainsIff(v, Key(side) + "[", 0);
  }

  /** A bare token stop at the front resolves through the family table. */
  lemma TokenStop(side: Side, t: string, rest: string)
    requires t != "" && IsTokenString(t)
    requires rest == [] || !IsTokenChar(rest[0])
    requires !Contains(Key(side) + t + rest, Key(side) + "[")
    ensures ResolveStop(Key(side) + t + rest, side) == FamilyStop(t, side)
  {
    var v := Key(side) + t + rest;
    OccursAtJoin("", Key(side), t + rest);
    assert v == "" + Key(side) + (t + rest);
    ContainsIff(v, Key(side), 0);
    var e := |Key(side)| + |t|;
    forall m | |Key(side)| <= m < e ensures IsTokenChar(v[m]) {
      assert v[m] == t[m - |Key(side)|];
    }
    assert e == |v| || v[e] == rest[0];
    TokenGroupAt(v, Key(side), 0, e);
    assert v[|Key(side)|..e] == t;
  }

  // ---------------------------------------------------------------------------
  // Whole values

  /** The middle piece of a concatenation sees exactly the occurrences inside it. */
  lemma OccursInMiddle(x: string, a: string, y: string, p: string, k: nat)
    requires k + |p| <= |a|
    ensures OccursAt(x + a + y, p, |x| + k) <==> OccursAt(a, p, k)
  {
    var v := x + a + y;
    OccursAtSlice(v, p, |x| + k);
    OccursAtSlice(a, p, k);
    assert v[|x| + k..|x| + k + |p|] == a[k..k + |p|];
  }

  lemma NoBracketInToken(t: string)
    requires IsTokenString(t)
    ensures '[' !in t
  {
    forall k | 0 <= k < |t| ensures t[k] != '[' {
      assert IsTokenChar(t[k]);
    }
  }

  /** In the explicit pair, "to-[" first occurs where the second stop begins. */
  lemma BracketPairToKey(a: string, b: string, j: nat)
    requires IsBracketable(a) && j < 8 + |a|
    ensures !OccursAt(BracketPair(a, b), "to-[", j)
  {
    var v := BracketPair(a, b);
    if j < 3 {
      assert v[j] == "from-["[j] && "from-["[j] in "from-[";
      assert 't' !in "from-[";
      NotOccursAt(v, "to-[", j, 0);
    } else {
      if j + 3 < 6 + |a| {
        assert v[j + 3] == a[j + 3 - 6];
      } else {
        assert v[j + 3] == "] to-["[j + 3 - 6 - |a|];
      }
      NotOccursAt(v, "to-[", j, 3);
    }
  }

  /** The lazy group of the explicit pair's second stop is its colour. */
  lemma BracketPairGroup(a: string, b: string)
    requires IsBracketable(a) && IsBracketable(b)
    ensures Contains(BracketPair(a, b), "to-[")
    ensures LazyGroup(BracketPair(a, b), "to-[", ']') == Some(b)
  {
    var v := BracketPair(a, b);
    var i := 8 + |a|;
    forall j: nat | j < i ensures !OccursAt(v, "to-[", j) {
      BracketPairToKey(a, b, j);
    }
    OccursAtJoin("from-[" + a + "] ", "to-[", b + "]");
    assert v == "from-[" + a + "] " + "to-[" + (b + "]");
    forall m | i + 4 <= m < i + 4 + |b| ensures v[m] != ']' && !IsLineTerminator(v[m]) {
      assert v[m] == b[m - i - 4];
    }
    LazyGroupAt(v, "to-[", ']', i, i + 4 + |b|);
    assert v[i + 4..i + 4 + |b|] == b;
    ContainsIff(v, "to-[", i);
  }

  lemma BracketPairToStop(a: string, b: string)
    requires IsBracketable(a) && IsBracketable(b)
    ensures ResolveStop(BracketPair(a, b), To) == b
  {
    BracketPairGroup(a, b);
    assert Key(To) + "[" == "to-[";
    ResolveBracketed(BracketPair(a, b), To, b);
  }

  /** Round trip: the explicit pair the editor writes is read back as that pair. */
  lemma BracketPairStops(a: string, b: string)
    requires IsBracketable(a) && IsBracketable(b)
    ensures ResolveStop(BracketPair(a, b), From) == a
    ensures ResolveStop(BracketPair(a, b), To) == b
  {
    assert BracketPair(a, b) == Key(From) + "[" + a + "]" + (" to-[" + b + "]");
    BracketStop(From, a, " to-[" + b + "]");
    BracketPairToStop(a, b);
  }

  /** The compact family encoding `from-<a> to-<b>`. */
  function FamilyPair(a: string, b: string): string {
    "from-" + a + " to-" + b
  }

  lemma FamilyPairNoBracket(a: string, b: string)
    requires IsTokenString(a) && IsTokenString(b)
    ensures !Contains(FamilyPair(a, b), "from-[") && !Contains(FamilyPair(a, b), "to-[")
  {
    var v := FamilyPair(a, b);
    NoBracketInToken(a);
    NoBracketInToken(b);
    assert '[' !in v;
    MissingCharNotContained(v, "from-[", 5);
    MissingCharNotContained(v, "to-[", 3);
  }

  /** In the compact encoding, "to-" first occurs where the second token's key is. */
  lemma FamilyPairToKey(a: string, b: string, j: nat)
    requires !Contains(a, "to-") && j < 6 + |a|
    ensures !OccursAt(FamilyPair(a, b), "to-", j)
  {
    var v := FamilyPair(a, b);
    if j < 5 {
      assert v[j] == "from-"[j] && "from-"[j] in "from-";
      assert 't' !in "from-";
      NotOccursAt(v, "to-", j, 0);
    } else if j + 3 <= 5 + |a| {
      OccursInMiddle("from-", a, " to-" + b, "to-", j - 5);
      assert "from-" + a + (" to-" + b) == v;
      ContainsIff(a, "to-", j - 5);
    } else {
      assert v[5 + |a|] == ' ';
      NotOccursAt(v, "to-", j, 5 + |a| - j);
    }
  }

  lemma FamilyPairToStop(a: string, b: string)
    requires a != "" && IsTokenString(a) && b != "" && IsTokenString(b)
    requires !Contains(a, "to-")
    ensures ResolveStop(FamilyPair(a, b), To) == FamilyStop(b, To)
  {
    var v := FamilyPair(a, b);
    FamilyPairNoBracket(a, b);
    var i := 6 + |a|;
    var pre := "from-" + a + " ";
    assert v == pre + "to-" + b;
    OccursAtJoin(pre, "to-", b);
    ContainsIff(v, "to-", i);
    forall j: nat | j < i ensures !OccursAt(v, "to-", j) {
      FamilyPairToKey(a, b, j);
    }
    forall m | i + 3 <= m < |v| ensures IsTokenChar(v[m]) {
      assert v[m] == b[m - i - 3];
    }
    TokenGroupAt(v, "to-", i, |v|);
    assert v[i + 3..|v|] == b;
    assert Key(To) == "to-" && Key(To) + "[" == "to-[";
  }

  /** The compact encoding resolves each stop through the family table. */
  lemma FamilyPairStops(a: string, b: string)
    requires a != "" && IsTokenString(a) && b != "" && IsTokenString(b)
    requires !Contains(a, "to-")
    ensures ResolveStop(FamilyPair(a, b), From) == FamilyStop(a, From)
    ensures ResolveStop(FamilyPair(a, b), To) == FamilyStop(b, To)
  {
    FamilyPairNoBracket(a, b);
    assert FamilyPair(a, b) == Key(From) + a + (" to-" + b);
    assert Key(From) + "[" == "from-[";
    TokenStop(From, a, " to-" + b);
    FamilyPairToStop(a, b);
  }
}
