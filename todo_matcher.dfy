/**
 * `TodoMatcher`: the search box filter. An empty term matches every todo; otherwise a
 * todo matches when its text contains the term, ignoring case, or, in fuzzy mode,
 * when the characters of the term can be found in the lower-cased text in order.
 */
module TodoMatchers {
  import opened Wrappers
  import opened Strings
  import opened TodoItems

  /** The characters of `term` are found in `text` from `from` on, each at or after
      the place where the previous one was found, as `indexOf(char, i)` with
      `i = matchIndex` finds them. */
  function FuzzyFrom(term: string, text: string, from: nat): bool
    requires from <= |text|
    decreases |term|
  {
    if term == [] then true
    else match IndexOfFrom(text, [term[0]], from)
      case None => false
      case Some(j) => FuzzyFrom(term[1..], text, j)
  }

  /** Positions in `text`, one for each character of `term`, holding that character,
      never decreasing and starting at `from` or later. One position may serve two
      equal characters in a row. */
  ghost predicate Embedding(term: string, text: string, from: nat, ps: seq<nat>) {
    && |ps| == |term|
    && (forall k :: 0 <= k < |ps| ==> ps[k] < |text| && text[ps[k]] == term[k])
    && (|ps| > 0 ==> from <= ps[0])
    && (forall k :: 0 < k < |ps| ==> ps[k - 1] <= ps[k])
  }

  /** The fuzzy search succeeds exactly when an embedding exists. */
  lemma FuzzyFromSpec(term: string, text: string, from: nat)
    requires from <= |text|
    ensures FuzzyFrom(term, text, from) <==> exists ps :: Embedding(term, text, from, ps)
  {
    if FuzzyFrom(term, text, from) {
      var ps := FuzzySound(term, text, from);
    }
    if ps :| Embedding(term, text, from, ps) {
      FuzzyComplete(term, text, from, ps);
    }
  }

  /** A successful search gives an embedding: the positions `indexOf` found. */
  lemma {:induction false} FuzzySound(term: string, text: string, from: nat) returns (ps: seq<nat>)
    requires from <= |text| && FuzzyFrom(term, text, from)
    ensures Embedding(term, text, from, ps)
    decreases |term|
  {
    if term == [] {
      ps := [];
    } else {
      var j := IndexOfFrom(text, [term[0]], from).value;
      assert text[j..j + 1] == [term[0]];
      var qs := FuzzySound(term[1..], text, j);
      ps := [j] + qs;
    }
  }

  /** An embedding makes the search succeed: each `indexOf` finds its character at or
      before the embedding's position. */
  lemma {:induction false} FuzzyComplete(term: string, text: string, from: nat, ps: seq<nat>)
    requires from <= |text| && Embedding(term, text, from, ps)
    ensures FuzzyFrom(term, text, from)
    decreases |term|
  {
    if term != [] {
      assert text[ps[0]..ps[0] + 1] == [term[0]];
      assert OccursAt(text, [term[0]], ps[0]);
      var j := IndexOfFrom(text, [term[0]], from).value;
      assert j <= ps[0];
      assert Embedding(term[1..], text, j, ps[1..]);
      FuzzyComplete(term[1..], text, j, ps[1..]);
    }
  }

  /** Because the index is not advanced past a match, a repeated character can reuse
      one position: `aa` is found in `a`. */
  lemma FuzzyReusesPosition()
    ensures FuzzyFrom("aa", "a", 0)
    ensures !Contains("a", "aa")
  {
    assert IndexOfFrom("a", ['a'], 0) == Some(0);
    assert !OccursAt("a", "aa", 0);
  }

  /** A term without the metacharacters `. * + ?` that the constructor leaves
      unescaped: its expression matches its own characters literally. */
  predicate PlainTerm(term: string) {
    forall i :: 0 <= i < |term| ==> term[i] !in {'.', '*', '+', '?'}
  }

  class TodoMatcher {
    /** The term, lower-cased. */
    const matchTerm: string
    const fuzzySearch: bool
    /** Whether the expression built from the escaped term is a literal one. */
    const plain: bool

    constructor(term: string, fuzzySearch: bool)
      ensures matchTerm == Lower(term) && this.fuzzySearch == fuzzySearch && plain == PlainTerm(term)
    {
      matchTerm := Lower(term);
      this.fuzzySearch := fuzzySearch;
      plain := PlainTerm(term);
    }

    /** `exactMatch` for a plain term: the `i` flag makes the search ignore case. */
    predicate ExactMatch(todo: TodoItem)
      requires plain
    {
      Contains(Lower(todo.text), matchTerm)
    }

    /** `fuzzyMatch`, as what it computes. */
    predicate FuzzyMatch(todo: TodoItem) {
      FuzzyFrom(matchTerm, Lower(todo.text), 0)
    }

    /** `matches`. */
    predicate Matches(todo: TodoItem)
      requires fuzzySearch || plain
    {
      if matchTerm == "" then true
      else if fuzzySearch then FuzzyMatch(todo)
      else ExactMatch(todo)
    }

    /** `fuzzyMatch`: the loop over the characters of the term. */
    method FuzzyMatchLoop(todo: TodoItem) returns (b: bool)
      ensures b == FuzzyMatch(todo)
      ensures b <==> exists ps :: Embedding(matchTerm, Lower(todo.text), 0, ps)
    {
      var i: nat := 0;
      var todoText := Lower(todo.text);
      FuzzyFromSpec(matchTerm, todoText, 0);
      var k := 0;
      while k < |matchTerm|
        invariant 0 <= k <= |matchTerm| && i <= |todoText|
        invariant FuzzyFrom(matchTerm, todoText, 0) == FuzzyFrom(matchTerm[k..], todoText, i)
      {
        assert matchTerm[k..][1..] == matchTerm[k + 1..];
        var matchIndex := IndexOfFrom(todoText, [matchTerm[k]], i);
        if matchIndex.None? {
          return false;
        }
        i := matchIndex.value;
        k := k + 1;
      }
      return true;
    }

    /** `matches`, calling the loop in fuzzy mode. */
    method MatchesTodo(todo: TodoItem) returns (b: bool)
      requires fuzzySearch || plain
      ensures b == Matches(todo)
    {
      if matchTerm == "" {
        return true;
      }
      if fuzzySearch {
        b := FuzzyMatchLoop(todo);
      } else {
        b := Contains(Lower(todo.text), matchTerm);
      }
    }

    /** An empty term matches every todo, in both modes. */
    lemma EmptyTermMatchesAll(todo: TodoItem)
      requires matchTerm == [] && (fuzzySearch || plain)
      ensures Matches(todo) && FuzzyMatch(todo)
    {
    }

    /** Every exact match is a fuzzy match: the characters of a substring are found in
        order. */
    lemma ExactImpliesFuzzy(todo: TodoItem)
      requires plain && ExactMatch(todo)
      ensures FuzzyMatch(todo)
    {
      var text := Lower(todo.text);
      var j := IndexOf(text, matchTerm).value;
      var ps := seq(|matchTerm|, k requires 0 <= k < |matchTerm| => j + k);
      forall k | 0 <= k < |ps|
        ensures ps[k] < |text| && text[ps[k]] == matchTerm[k]
      {
        assert text[j..j + |matchTerm|][k] == matchTerm[k];
      }
      FuzzyComplete(matchTerm, text, 0, ps);
    }
  }
}
