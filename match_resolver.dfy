/**
 * Match resolution: which knowledge source, if any, applies to a restaurant. Curated chains
 * outrank the caller's cuisine tags, which outrank keywords guessed from the name; within each
 * stage the first hit in declaration (or caller) order wins.
 */
module MatchResolver {
  import opened Text
  import opened Knowledge

  /** The tagged result of a lookup: a curated chain, generic cuisine advice, or nothing (`null`). */
  datatype Match =
    | Curated(chain: string, safeItems: AllergenTable)
    | Generic(safeItems: AllergenTable)
    | NoMatch

  /** `data.matches.some(match => searchName.includes(match))`. */
  predicate ChainHit(c: ChainEntry, searchName: string) {
    exists i :: 0 <= i < |c.aliases| && Includes(searchName, c.aliases[i])
  }

  /** Index of the first chain with an alias in `searchName`; `|chains|` when there is none. */
  function FirstChainHit(chains: seq<ChainEntry>, searchName: string): (k: nat)
    ensures k <= |chains|
    ensures k < |chains| ==> ChainHit(chains[k], searchName)
    ensures forall j :: 0 <= j < k ==> !ChainHit(chains[j], searchName)
  {
    if chains == [] then 0
    else if ChainHit(chains[0], searchName) then 0
    else 1 + FirstChainHit(chains[1..], searchName)
  }

  /** Index of the first cuisine tag whose lower-cased form is a key of `advice`; `|types|` when none is. */
  function FirstAdviceTag(advice: map<string, AllergenTable>, types: seq<string>): (k: nat)
    ensures k <= |types|
    ensures k < |types| ==> Lower(types[k]) in advice
    ensures forall j :: 0 <= j < k ==> Lower(types[j]) !in advice
  {
    if types == [] then 0
    else if Lower(types[0]) in advice then 0
    else 1 + FirstAdviceTag(advice, types[1..])
  }

  /** Index of the first keyword rule whose keyword occurs in `searchName`; `|keywords|` when none does. */
  function FirstKeywordHit(keywords: seq<(string, string)>, searchName: string): (k: nat)
    ensures k <= |keywords|
    ensures k < |keywords| ==> Includes(searchName, keywords[k].0)
    ensures forall j :: 0 <= j < k ==> !Includes(searchName, keywords[j].0)
  {
    if keywords == [] then 0
    else if Includes(searchName, keywords[0].0) then 0
    else 1 + FirstKeywordHit(keywords[1..], searchName)
  }

  /** What `findMatch` returns, stage by stage. */
  function Resolve(kb: KnowledgeBase, name: string, types: seq<string>): Match
    requires kb.WellFormed()
  {
    var searchName := Lower(name);
    var c := FirstChainHit(kb.chains, searchName);
    if c < |kb.chains| then
      Curated(kb.chains[c].key, kb.chains[c].safeItems)
    else
      var t := FirstAdviceTag(kb.advice, types);
      if t < |types| then
        Generic(kb.advice[Lower(types[t])])
      else
        var w := FirstKeywordHit(kb.keywords, searchName);
        if w < |kb.keywords| then Generic(kb.advice[kb.keywords[w].1]) else NoMatch
  }

  /**
   * Stage 1: when chain `i` is the first whose alias occurs in the lower-cased name, the result
   * is that chain, whatever cuisine tags the caller passes.
   */
  lemma CuratedWins(kb: KnowledgeBase, name: string, types: seq<string>, i: nat)
    requires kb.WellFormed()
    requires i < |kb.chains| && ChainHit(kb.chains[i], Lower(name))
    requires forall j :: 0 <= j < i ==> !ChainHit(kb.chains[j], Lower(name))
    ensures Resolve(kb, name, types) == Curated(kb.chains[i].key, kb.chains[i].safeItems)
  {
  }

  /**
   * Stage 2: with no curated hit, tag `t` is used when its lower-cased form is a key of the advice
   * table and no earlier tag's is. Only exact keys count on this path.
   */
  lemma TagAdviceWins(kb: KnowledgeBase, name: string, types: seq<string>, t: nat)
    requires kb.WellFormed()
    requires forall i :: 0 <= i < |kb.chains| ==> !ChainHit(kb.chains[i], Lower(name))
    requires t < |types| && Lower(types[t]) in kb.advice
    requires forall j :: 0 <= j < t ==> Lower(types[j]) !in kb.advice
    ensures Resolve(kb, name, types) == Generic(kb.advice[Lower(types[t])])
  {
  }

  /**
   * Stage 3: with no curated hit and no tag that is a key, keyword rule `w` is used when its keyword
   * is the first, in declaration order, that occurs in the lower-cased name.
   */
  lemma KeywordWins(kb: KnowledgeBase, name: string, types: seq<string>, w: nat)
    requires kb.WellFormed()
    requires forall i :: 0 <= i < |kb.chains| ==> !ChainHit(kb.chains[i], Lower(name))
    requires forall j :: 0 <= j < |types| ==> Lower(types[j]) !in kb.advice
    requires w < |kb.keywords| && Includes(Lower(name), kb.keywords[w].0)
    requires forall j :: 0 <= j < w ==> !Includes(Lower(name), kb.keywords[j].0)
    ensures Resolve(kb, name, types) == Generic(kb.advice[kb.keywords[w].1])
  {
  }

  /** Stage 4: the result is `null` exactly when no stage finds anything. */
  lemma NoMatchIff(kb: KnowledgeBase, name: string, types: seq<string>)
    requires kb.WellFormed()
    ensures Resolve(kb, name, types) == NoMatch <==>
      (forall i :: 0 <= i < |kb.chains| ==> !ChainHit(kb.chains[i], Lower(name))) &&
      (forall j :: 0 <= j < |types| ==> Lower(types[j]) !in kb.advice) &&
      (forall w :: 0 <= w < |kb.keywords| ==> !Includes(Lower(name), kb.keywords[w].0))
  {
  }
}
