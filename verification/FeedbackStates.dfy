/** The five feedback states, their names, and the keys made of them. */
module FeedbackStates {

  datatype FeedbackState =
    | BorrowedRetained
    | BorrowEndedRetained
    | InvokedAfterEnd
    | ReleasedBeforeEnd
    | ClosedOwnerWithRetainedCallback

  function Name(state: FeedbackState): string {
    match state
    case BorrowedRetained => "borrowed_retained"
    case BorrowEndedRetained => "borrow_ended_retained"
    case InvokedAfterEnd => "invoked_after_end"
    case ReleasedBeforeEnd => "released_before_end"
    case ClosedOwnerWithRetainedCallback => "closed_owner_with_retained_callback"
  }

  const ALL_STATES: set<FeedbackState> :=
    {BorrowedRetained, BorrowEndedRetained, InvokedAfterEnd, ReleasedBeforeEnd, ClosedOwnerWithRetainedCallback}

  lemma IsOneOfFive(state: FeedbackState)
    ensures state in ALL_STATES
  {
    match state
    case BorrowedRetained =>
    case BorrowEndedRetained =>
    case InvokedAfterEnd =>
    case ReleasedBeforeEnd =>
    case ClosedOwnerWithRetainedCallback =>
  }

  lemma StatesAreFive(states: set<FeedbackState>)
    ensures states <= ALL_STATES && |states| <= 5
  {
    forall state <- states ensures state in ALL_STATES { IsOneOfFive(state); }
    var rest := ALL_STATES - states;
    assert ALL_STATES == states + rest;
    assert |ALL_STATES| == 5;
  }

  /** The first of the states in their declared order. */
  function First(states: set<FeedbackState>): (first: FeedbackState)
    requires states != {}
    ensures first in states
  {
    if BorrowedRetained in states then BorrowedRetained
    else if BorrowEndedRetained in states then BorrowEndedRetained
    else if InvokedAfterEnd in states then InvokedAfterEnd
    else if ReleasedBeforeEnd in states then ReleasedBeforeEnd
    else
      assert ClosedOwnerWithRetainedCallback in states by {
        var state :| state in states;
        IsOneOfFive(state);
      }
      ClosedOwnerWithRetainedCallback
  }

  /** The states in their declared order. */
  function InOrder(states: set<FeedbackState>): (order: seq<FeedbackState>)
    ensures forall state :: state in order <==> state in states
    ensures states == {} ==> order == []
  {
    if states == {} then [] else [First(states)] + InOrder(states - {First(states)})
  }

  /** The place of a state in the declaration. */
  function Rank(state: FeedbackState): nat {
    match state
    case BorrowedRetained => 0
    case BorrowEndedRetained => 1
    case InvokedAfterEnd => 2
    case ReleasedBeforeEnd => 3
    case ClosedOwnerWithRetainedCallback => 4
  }

  /** Exactly these states, each once, in the order of their declaration. */
  ghost predicate Lists(order: seq<FeedbackState>, states: set<FeedbackState>) {
    && (forall state :: state in order <==> state in states)
    && (forall i, j :: 0 <= i < j < |order| ==> Rank(order[i]) < Rank(order[j]))
  }

  lemma FirstIsLeast(states: set<FeedbackState>)
    requires states != {}
    ensures forall state <- states :: state != First(states) ==> Rank(First(states)) < Rank(state)
  {
  }

  lemma {:induction false} InOrderLists(states: set<FeedbackState>)
    ensures Lists(InOrder(states), states)
  {
    if states != {} {
      FirstIsLeast(states);
      InOrderLists(states - {First(states)});
    }
  }

  lemma {:induction false} OneOrder(a: seq<FeedbackState>, b: seq<FeedbackState>, states: set<FeedbackState>)
    requires Lists(a, states) && Lists(b, states)
    ensures a == b
  {
    if b != [] { assert b[0] in a; }
    if a != [] {
      assert a[0] in b && b[0] in a;
      assert a[0] == b[0];
      assert forall state :: state in a[1..] <==> state in a && state != a[0];
      assert forall state :: state in b[1..] <==> state in b && state != b[0];
      OneOrder(a[1..], b[1..], states - {a[0]});
      assert a == [a[0]] + a[1..] && b == [b[0]] + b[1..];
    }
  }

  /** The key is the names of the states, in the order of their declaration, joined by bars; no other list does. */
  lemma KeyIsOrderedJoin(states: set<FeedbackState>)
    ensures exists order :: Lists(order, states) && StateKey(states) == Join(Names(order), "|")
    ensures forall order :: Lists(order, states) ==> StateKey(states) == Join(Names(order), "|")
  {
    InOrderLists(states);
    forall order | Lists(order, states) ensures order == InOrder(states) {
      OneOrder(order, InOrder(states), states);
    }
  }

  // ---- Names ----

  function Lower(c: char): char {
    if 'A' <= c <= 'Z' then c - 'A' + 'a' else c
  }

  function Lowercase(word: string): string {
    seq(|word|, i requires 0 <= i < |word| => Lower(word[i]))
  }

  function LowercaseAll(words: seq<string>): seq<string> {
    seq(|words|, i requires 0 <= i < |words| => Lowercase(words[i]))
  }

  /** The words of the variant's identifier. */
  function Words(state: FeedbackState): seq<string> {
    match state
    case BorrowedRetained => ["Borrowed", "Retained"]
    case BorrowEndedRetained => ["Borrow", "Ended", "Retained"]
    case InvokedAfterEnd => ["Invoked", "After", "End"]
    case ReleasedBeforeEnd => ["Released", "Before", "End"]
    case ClosedOwnerWithRetainedCallback => ["Closed", "Owner", "With", "Retained", "Callback"]
  }

  lemma LowercaseTwo(a: string, b: string)
    ensures Join(LowercaseAll([a, b]), "_") == Lowercase(a) + "_" + Lowercase(b)
  {
    assert LowercaseAll([a, b]) == [Lowercase(a), Lowercase(b)];
  }

  lemma LowercaseThree(a: string, b: string, c: string)
    ensures Join(LowercaseAll([a, b, c]), "_") == Lowercase(a) + "_" + (Lowercase(b) + "_" + Lowercase(c))
  {
    assert LowercaseAll([a, b, c]) == [Lowercase(a), Lowercase(b), Lowercase(c)];
    assert [Lowercase(a), Lowercase(b), Lowercase(c)][1..] == [Lowercase(b), Lowercase(c)];
    assert Join([Lowercase(b), Lowercase(c)], "_") == Lowercase(b) + "_" + Lowercase(c);
  }

  lemma LowercaseFive(a: string, b: string, c: string, d: string, e: string)
    ensures Join(LowercaseAll([a, b, c, d, e]), "_")
      == Lowercase(a) + "_" + (Lowercase(b) + "_" + (Lowercase(c) + "_" + (Lowercase(d) + "_" + Lowercase(e))))
  {
    var words := [Lowercase(a), Lowercase(b), Lowercase(c), Lowercase(d), Lowercase(e)];
    assert LowercaseAll([a, b, c, d, e]) == words;
    assert words[1..][1..] == [Lowercase(c), Lowercase(d), Lowercase(e)];
    LowercaseThree(c, d, e);
    assert LowercaseAll([c, d, e]) == [Lowercase(c), Lowercase(d), Lowercase(e)];
  }

  lemma FirstWords()
    ensures Lowercase("Borrowed") == "borrowed" && Lowercase("Retained") == "retained" && Lowercase("Borrow") == "borrow"
    ensures Lowercase("Ended") == "ended" && Lowercase("Invoked") == "invoked" && Lowercase("After") == "after"
  {
  }

  lemma OtherWords()
    ensures Lowercase("End") == "end" && Lowercase("Released") == "released" && Lowercase("Before") == "before"
    ensures Lowercase("Closed") == "closed" && Lowercase("Owner") == "owner" && Lowercase("With") == "with"
    ensures Lowercase("Callback") == "callback"
  {
  }

  lemma BorrowedRetainedInWords()
    ensures Name(BorrowedRetained) == Join(LowercaseAll(Words(BorrowedRetained)), "_")
  {
    FirstWords();
    OtherWords();
    LowercaseTwo("Borrowed", "Retained");
  }

  lemma BorrowEndedRetainedInWords()
    ensures Name(BorrowEndedRetained) == Join(LowercaseAll(Words(BorrowEndedRetained)), "_")
  {
    FirstWords();
    OtherWords();
    LowercaseThree("Borrow", "Ended", "Retained");
  }

  lemma InvokedAfterEndInWords()
    ensures Name(InvokedAfterEnd) == Join(LowercaseAll(Words(InvokedAfterEnd)), "_")
  {
    FirstWords();
    OtherWords();
    LowercaseThree("Invoked", "After", "End");
  }

  lemma ReleasedBeforeEndInWords()
    ensures Name(ReleasedBeforeEnd) == Join(LowercaseAll(Words(ReleasedBeforeEnd)), "_")
  {
    FirstWords();
    OtherWords();
    LowercaseThree("Released", "Before", "End");
  }

  lemma ClosedOwnerSpelled()
    ensures "retained" + "_" + "callback" == "retained_callback"
    ensures "closed" + "_" + ("owner" + "_" + ("with" + "_" + "retained_callback")) == Name(ClosedOwnerWithRetainedCallback)
  {
  }

  lemma ClosedOwnerInWords()
    ensures Name(ClosedOwnerWithRetainedCallback) == Join(LowercaseAll(Words(ClosedOwnerWithRetainedCallback)), "_")
  {
    FirstWords();
    OtherWords();
    LowercaseFive("Closed", "Owner", "With", "Retained", "Callback");
    ClosedOwnerSpelled();
  }

  /** The name in a key is the one serialisation gives: the identifier's words in lower case, joined by underscores. */
  lemma NameIsSnakeCase(state: FeedbackState)
    ensures Name(state) == Join(LowercaseAll(Words(state)), "_")
  {
    match state
    case BorrowedRetained => BorrowedRetainedInWords();
    case BorrowEndedRetained => BorrowEndedRetainedInWords();
    case InvokedAfterEnd => InvokedAfterEndInWords();
    case ReleasedBeforeEnd => ReleasedBeforeEndInWords();
    case ClosedOwnerWithRetainedCallback => ClosedOwnerInWords();
  }

  function Names(states: seq<FeedbackState>): seq<string> {
    seq(|states|, i requires 0 <= i < |states| => Name(states[i]))
  }

  function Join(parts: seq<string>, separator: string): string {
    if parts == [] then ""
    else if |parts| == 1 then parts[0]
    else parts[0] + separator + Join(parts[1..], separator)
  }

  /** The names of the states in order, joined by bars. */
  function StateKey(states: set<FeedbackState>): string {
    Join(Names(InOrder(states)), "|")
  }

  // ---- The key gives the states away ----

  /** What a state name is made of. */
  predicate IsWord(word: string) {
    word != "" && '|' !in word && '>' !in word
  }

  lemma BorrowedRetainedIsWord()
    ensures IsWord(Name(BorrowedRetained))
  {
  }

  lemma BorrowEndedRetainedIsWord()
    ensures IsWord(Name(BorrowEndedRetained))
  {
  }

  lemma InvokedAfterEndIsWord()
    ensures IsWord(Name(InvokedAfterEnd))
  {
  }

  lemma ReleasedBeforeEndIsWord()
    ensures IsWord(Name(ReleasedBeforeEnd))
  {
  }

  lemma ClosedOwnerIsWord()
    ensures IsWord(Name(ClosedOwnerWithRetainedCallback))
  {
  }

  lemma NamesAreWords(state: FeedbackState)
    ensures IsWord(Name(state))
  {
    match state
    case BorrowedRetained => BorrowedRetainedIsWord();
    case BorrowEndedRetained => BorrowEndedRetainedIsWord();
    case InvokedAfterEnd => InvokedAfterEndIsWord();
    case ReleasedBeforeEnd => ReleasedBeforeEndIsWord();
    case ClosedOwnerWithRetainedCallback => ClosedOwnerIsWord();
  }

  lemma NamesDiffer(a: FeedbackState, b: FeedbackState)
    requires Name(a) == Name(b)
    ensures a == b
  {
    assert |Name(a)| == |Name(b)| && Name(a)[0] == Name(b)[0];
  }

  ghost predicate AreWords(parts: seq<string>) {
    forall part <- parts :: IsWord(part)
  }

  /** Two texts that continue with the same separator, or not at all, are cut at the same place. */
  lemma CutAt(separator: char, a: string, x: string, b: string, y: string)
    requires separator !in a && separator !in b
    requires x != "" ==> x[0] == separator
    requires y != "" ==> y[0] == separator
    requires a + x == b + y
    ensures a == b && x == y
  {
    Letters(a, x);
    Letters(b, y);
    assert a == (a + x)[..|a|] && b == (b + y)[..|b|];
    assert x == (a + x)[|a|..] && y == (b + y)[|b|..];
  }

  lemma Letters(a: string, x: string)
    ensures forall k :: 0 <= k < |a| ==> (a + x)[k] == a[k]
    ensures x != "" ==> (a + x)[|a|] == x[0]
  {
  }

  lemma {:induction false} JoinSplits(a: seq<string>, b: seq<string>)
    requires AreWords(a) && AreWords(b) && Join(a, "|") == Join(b, "|")
    ensures a == b
  {
    JoinEmpty(a);
    JoinEmpty(b);
    if a != [] {
      JoinHead(a);
      JoinHead(b);
      assert IsWord(a[0]) && IsWord(b[0]);
      CutAt('|', a[0], Tail(a), b[0], Tail(b));
      if |a| > 1 {
        assert Tail(a)[1..] == Join(a[1..], "|") && Tail(b)[1..] == Join(b[1..], "|");
        JoinSplits(a[1..], b[1..]);
      }
      assert a == [a[0]] + a[1..] && b == [b[0]] + b[1..];
    }
  }

  function Tail(parts: seq<string>): string
    requires parts != []
  {
    if |parts| == 1 then "" else "|" + Join(parts[1..], "|")
  }

  lemma JoinHead(parts: seq<string>)
    requires parts != []
    ensures Join(parts, "|") == parts[0] + Tail(parts)
  {
    if |parts| > 1 {
      assert parts[0] + "|" + Join(parts[1..], "|") == parts[0] + ("|" + Join(parts[1..], "|"));
    }
  }

  lemma JoinEmpty(parts: seq<string>)
    requires AreWords(parts)
    ensures Join(parts, "|") == "" <==> parts == []
  {
    if parts != [] { assert IsWord(parts[0]); }
  }

  /** Different sets of states have different keys. */
  lemma KeyIsInjective(a: set<FeedbackState>, b: set<FeedbackState>)
    requires StateKey(a) == StateKey(b)
    ensures a == b
  {
    WordsOf(InOrder(a));
    WordsOf(InOrder(b));
    JoinSplits(Names(InOrder(a)), Names(InOrder(b)));
    SameNames(InOrder(a), InOrder(b));
  }

  lemma WordsOf(states: seq<FeedbackState>)
    ensures AreWords(Names(states))
  {
    forall i | 0 <= i < |states| ensures IsWord(Names(states)[i]) {
      NamesAreWords(states[i]);
    }
  }

  lemma SameNames(a: seq<FeedbackState>, b: seq<FeedbackState>)
    requires Names(a) == Names(b)
    ensures a == b
  {
    assert |a| == |Names(a)| == |b|;
    forall i | 0 <= i < |a| ensures a[i] == b[i] {
      assert Names(a)[i] == Name(a[i]) && Names(b)[i] == Name(b[i]);
      NamesDiffer(a[i], b[i]);
    }
  }

  lemma {:induction false} NoArrowInJoin(parts: seq<string>)
    requires AreWords(parts)
    ensures '>' !in Join(parts, "|")
  {
    if parts != [] { assert IsWord(parts[0]); }
    if |parts| > 1 { NoArrowInJoin(parts[1..]); }
  }

  lemma NoArrowInKey(states: set<FeedbackState>)
    ensures '>' !in StateKey(states)
  {
    WordsOf(InOrder(states));
    NoArrowInJoin(Names(InOrder(states)));
  }
}
