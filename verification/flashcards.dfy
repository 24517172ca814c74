/** The flashcards page: cards loaded from the backend and a study-session controller whose fields
    are the page's React state (position, flip side, view, mastered ids). */
module Flashcards {
  import opened Common

  datatype Flashcard = Flashcard(
    id: string,
    question: string,
    answer: string,
    category: string,
    difficulty: Difficulty,
    mastered: bool)

  /** One card as the flashcards endpoint returns it. */
  datatype BackendCard = BackendCard(question: string, answer: string)

  datatype ViewMode = Study | Grid

  // ---------------------------------------------------------------------------------------------
  // Loading

  function MapCard(c: BackendCard, idx: nat): Flashcard {
    Flashcard(NatToString(idx + 1), c.question, c.answer, "General", Medium, false)
  }

  /** The loader's mapping: position i becomes id "i+1"; question and answer are copied; category,
      difficulty and the mastered flag get fixed defaults. */
  function MapCards(cs: seq<BackendCard>): (r: seq<Flashcard>)
    ensures |r| == |cs|
    ensures forall i :: 0 <= i < |cs| ==>
      && r[i].question == cs[i].question
      && r[i].answer == cs[i].answer
      && r[i].category == "General"
      && r[i].difficulty == Medium
      && !r[i].mastered
      && AllDigits(r[i].id) && ParseNat(r[i].id) == i + 1
      && (|r[i].id| > 1 ==> r[i].id[0] != '0')
  {
    var r := seq(|cs|, i requires 0 <= i < |cs| => MapCard(cs[i], i));
    forall i | 0 <= i < |cs| ensures ParseNat(r[i].id) == i + 1 {
      ParseNatToString(i + 1);
    }
    r
  }

  predicate DistinctCardIds(cards: seq<Flashcard>) {
    forall j, k :: 0 <= j < k < |cards| ==> cards[j].id != cards[k].id
  }

  lemma MappedCardIdsDistinct(cs: seq<BackendCard>)
    ensures DistinctCardIds(MapCards(cs))
  {
    var r := MapCards(cs);
    forall j, k | 0 <= j < k < |cs| ensures r[j].id != r[k].id {
      NatToStringInjective(j + 1, k + 1);
    }
  }

  /** The ids present in a deck. */
  function CardIds(cards: seq<Flashcard>): (ids: set<string>)
    ensures forall k :: 0 <= k < |cards| ==> cards[k].id in ids
    ensures |ids| <= |cards|
  {
    if cards == [] then {} else CardIds(cards[..|cards| - 1]) + {cards[|cards| - 1].id}
  }

  /** An id no card carries is not in the id set. */
  lemma {:induction false} NotInCardIds(cards: seq<Flashcard>, id: string)
    requires forall k :: 0 <= k < |cards| ==> cards[k].id != id
    ensures id !in CardIds(cards)
  {
    if cards != [] {
      var init := cards[..|cards| - 1];
      assert forall k :: 0 <= k < |init| ==> init[k] == cards[k];
      NotInCardIds(init, id);
    }
  }

  /** A deck whose ids are distinct has as many ids as cards; so a loaded deck starts with every
      card "to review". */
  lemma {:induction false} DistinctCardIdsCount(cards: seq<Flashcard>)
    requires DistinctCardIds(cards)
    ensures |CardIds(cards)| == |cards|
  {
    if cards != [] {
      var init := cards[..|cards| - 1];
      DistinctCardIdsCount(init);
      var last := cards[|cards| - 1].id;
      assert forall k :: 0 <= k < |init| ==> init[k].id != last by {
        forall k | 0 <= k < |init| ensures init[k].id != last {
          assert init[k] == cards[k];
        }
      }
      NotInCardIds(init, last);
      assert CardIds(cards) == CardIds(init) + {last};
    }
  }

  /** A freshly loaded deck has one distinct id per card. */
  lemma LoadedDeckIdCount(cs: seq<BackendCard>)
    ensures |CardIds(MapCards(cs))| == |cs|
  {
    MappedCardIdsDistinct(cs);
    DistinctCardIdsCount(MapCards(cs));
  }

  // ---------------------------------------------------------------------------------------------
  // Navigation arithmetic

  /** `(prev + 1) % flashcards.length`: one step forward, wrapping from the last card to the first. */
  function NextIndex(i: int, n: int): (r: int)
    requires n > 0 && 0 <= i < n
    ensures 0 <= r < n
    ensures r == if i == n - 1 then 0 else i + 1
  {
    JsRem(i + 1, n)
  }

  /** `(prev - 1 + flashcards.length) % flashcards.length`: one step back, wrapping from the first
      card to the last. */
  function PrevIndex(i: int, n: int): (r: int)
    requires n > 0 && 0 <= i < n
    ensures 0 <= r < n
    ensures r == if i == 0 then n - 1 else i - 1
  {
    JsRem(i - 1 + n, n)
  }

  lemma PrevUndoesNext(i: int, n: int)
    requires n > 0 && 0 <= i < n
    ensures PrevIndex(NextIndex(i, n), n) == i && NextIndex(PrevIndex(i, n), n) == i
  {
  }

  /** The position after k presses of "next". */
  function Advance(i: int, n: int, k: nat): (r: int)
    requires n > 0 && 0 <= i < n
    ensures 0 <= r < n
  {
    if k == 0 then i else NextIndex(Advance(i, n, k - 1), n)
  }

  lemma {:induction false} AdvanceIsRemainder(i: int, n: int, k: nat)
    requires n > 0 && 0 <= i < n
    ensures Advance(i, n, k) == (i + k) % n
  {
    if k == 0 {
      DivModUnique(i, n, 0, i);
    } else {
      AdvanceIsRemainder(i, n, k - 1);
      NextOfRemainder(i + k - 1, n);
    }
  }

  lemma NextOfRemainder(j: int, n: int)
    requires j >= 0 && n > 0
    ensures NextIndex(j % n, n) == (j + 1) % n
  {
    var p, q := j % n, j / n;
    assert j == q * n + p;
    if p == n - 1 {
      assert j + 1 == (q + 1) * n + 0;
      DivModUnique(j + 1, n, q + 1, 0);
    } else {
      DivModUnique(j + 1, n, q, p + 1);
    }
  }

  /** Pressing "next" once per card comes back to the starting card. */
  lemma FullCycle(i: int, n: int)
    requires n > 0 && 0 <= i < n
    ensures Advance(i, n, n) == i
  {
    AdvanceIsRemainder(i, n, n);
    DivModUnique(i + n, n, 1, i);
  }

  /** `Math.floor(random * flashcards.length)` for a `Math.random()` value in [0, 1). */
  function ShuffleIndex(random: real, n: int): (r: int)
    requires 0.0 <= random < 1.0 && n > 0
    ensures 0 <= r < n
    ensures r as real <= random * n as real < r as real + 1.0
  {
    assert random * n as real < n as real;
    (random * n as real).Floor
  }

  /** On a deck of three, "next" from the first card shows the second, and a shuffle drawing 0.5
      lands on index 1. */
  lemma ThreeCardExample()
    ensures NextIndex(0, 3) == 1
    ensures ShuffleIndex(0.5, 3) == 1
  {
  }

  // ---------------------------------------------------------------------------------------------
  // Mastery

  /** The set after toggling one id: the id's membership flips, every other id is untouched. */
  function Toggled(s: set<string>, id: string): (t: set<string>)
    ensures id in t <==> id !in s
    ensures forall x :: x != id ==> (x in t <==> x in s)
  {
    if id in s then s - {id} else s + {id}
  }

  lemma ToggleTwice(s: set<string>, id: string)
    ensures Toggled(Toggled(s, id), id) == s
  {
  }

  /** The "To Review" count: `flashcards.length - masteredCards.size`. */
  function ToReview(cards: seq<Flashcard>, mastered: set<string>): (n: int)
    requires mastered <= CardIds(cards)
    ensures 0 <= n <= |cards|
    ensures n + |mastered| == |cards|
  {
    SubsetCardinality(mastered, CardIds(cards));
    |cards| - |mastered|
  }

  lemma {:induction false} SubsetCardinality(a: set<string>, b: set<string>)
    requires a <= b
    ensures |a| <= |b|
  {
    if a != {} {
      var x :| x in a;
      SubsetCardinality(a - {x}, b - {x});
    }
  }

  // ---------------------------------------------------------------------------------------------
  // The session controller

  class FlashcardSession {
    var flashcards: seq<Flashcard>
    var currentIndex: int
    var isFlipped: bool
    var viewMode: ViewMode
    var masteredCards: set<string>

    /** The index names a card whenever there is one, and only ids of the deck are mastered. */
    ghost predicate Valid()
      reads this
    {
      && 0 <= currentIndex && (currentIndex < |flashcards| || currentIndex == 0)
      && masteredCards <= CardIds(flashcards)
    }

    /** The page after mount and a successful load of the given cards. */
    constructor (loaded: seq<BackendCard>)
      ensures flashcards == MapCards(loaded)
      ensures currentIndex == 0 && !isFlipped && viewMode == Study && masteredCards == {}
      ensures Valid()
    {
      flashcards := MapCards(loaded);
      currentIndex := 0;
      isFlipped := false;
      viewMode := Study;
      masteredCards := {};
    }

    method NextCard()
      requires Valid() && |flashcards| > 0
      modifies this`currentIndex, this`isFlipped
      ensures currentIndex == NextIndex(old(currentIndex), |flashcards|) && !isFlipped
      ensures Valid()
    {
      currentIndex := JsRem(currentIndex + 1, |flashcards|);
      isFlipped := false;
    }

    method PrevCard()
      requires Valid() && |flashcards| > 0
      modifies this`currentIndex, this`isFlipped
      ensures currentIndex == PrevIndex(old(currentIndex), |flashcards|) && !isFlipped
      ensures Valid()
    {
      currentIndex := JsRem(currentIndex - 1 + |flashcards|, |flashcards|);
      isFlipped := false;
    }

    method FlipCard()
      modifies this`isFlipped
      ensures isFlipped == !old(isFlipped)
    {
      isFlipped := !isFlipped;
    }

    /** shuffleCards: jumps to one random position; the deck itself keeps its order. */
    method ShuffleCards(random: real)
      requires Valid() && |flashcards| > 0 && 0.0 <= random < 1.0
      modifies this`currentIndex, this`isFlipped
      ensures currentIndex == ShuffleIndex(random, |flashcards|) && !isFlipped
      ensures Valid()
    {
      currentIndex := ShuffleIndex(random, |flashcards|);
      isFlipped := false;
    }

    method ToggleMastered(cardId: string)
      modifies this`masteredCards
      ensures masteredCards == Toggled(old(masteredCards), cardId)
      ensures old(Valid()) && cardId in CardIds(flashcards) ==> Valid()
    {
      if cardId in masteredCards {
        masteredCards := masteredCards - {cardId};
      } else {
        masteredCards := masteredCards + {cardId};
      }
    }

    /** The mastery button: toggles the card on screen. */
    method ToggleCurrentMastered()
      requires Valid() && |flashcards| > 0
      modifies this`masteredCards
      ensures masteredCards == Toggled(old(masteredCards), flashcards[currentIndex].id)
      ensures Valid()
    {
      ToggleMastered(flashcards[currentIndex].id);
    }

    /** A click on a card of the grid opens it, unflipped, in the study view. */
    method SelectFromGrid(index: int)
      requires Valid() && 0 <= index < |flashcards|
      modifies this`currentIndex, this`viewMode, this`isFlipped
      ensures currentIndex == index && viewMode == Study && !isFlipped
      ensures Valid()
    {
      currentIndex := index;
      viewMode := Study;
      isFlipped := false;
    }

    /** The "Grid View" and "Start Studying" buttons. */
    method SetViewMode(mode: ViewMode)
      modifies this`viewMode
      ensures viewMode == mode
    {
      viewMode := mode;
    }

    /** The "Mastered" and "To Review" tiles of the grid view. */
    function MasteryCounts(): (counts: (int, int))
      reads this
      requires Valid()
      ensures counts.0 == |masteredCards| && 0 <= counts.1 && counts.0 + counts.1 == |flashcards|
    {
      (|masteredCards|, ToReview(flashcards, masteredCards))
    }
  }
}
