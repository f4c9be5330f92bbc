/**
 The gate between driver callbacks, which carry no user data, and the one capture they may
 touch.  Any number of callback threads and any number of captures competing for the gate take
 steps in any order; every atomic access is one step (sequential consistency).
 */
module CallbackGate {
  import opened Wrappers

  const CLOSED_BIT: nat := 0x8000_0000
  const READER_MASK: nat := CLOSED_BIT - 1

  // ---------------------------------------------------------------- the state word

  predicate IsClosed(word: nat) {
    word >= CLOSED_BIT
  }

  /** The low 31 bits. */
  function Readers(word: nat): nat {
    if IsClosed(word) then word - CLOSED_BIT else word
  }

  /** fetch_or with the closed bit. */
  function WithClosedBit(word: nat): nat {
    if IsClosed(word) then word else word + CLOSED_BIT
  }

  // ---------------------------------------------------------------- threads

  /** A capture, identified with its target; where it is in try_activate or deactivate_and_wait. */
  datatype Owner =
    | Inactive
    | Claimed      // owner_ has been exchanged from null
    | Published    // target_ has been written
    | Active       // state_ has been stored as 0
    | Closing      // the closed bit is set, readers are being waited for
    | Drained      // a load of state_ has shown no reader
    | Cleared      // target_ has been reset

  /** A driver callback: outside, holding a loaded word, counted, or holding a Reader. */
  datatype Callback =
    | Outside
    | Loaded(word: nat)
    | Counted
    | Reading(target: nat)

  datatype Gate = Gate(
    word: nat, owner: Option<nat>, target: Option<nat>,
    owners: map<nat, Owner>, callbacks: map<nat, Callback>)

  /** Callbacks counted in the state word. */
  function Live(g: Gate): set<nat> {
    set t | t in g.callbacks && (g.callbacks[t].Counted? || g.callbacks[t].Reading?)
  }

  // ---------------------------------------------------------------- steps of a capture

  ghost predicate Claim(g: Gate, g': Gate, o: nat) {
    && o in g.owners && g.owners[o] == Inactive && g.owner == None
    && g' == g.(owner := Some(o), owners := g.owners[o := Claimed])
  }

  ghost predicate PublishTarget(g: Gate, g': Gate, o: nat) {
    && o in g.owners && g.owners[o] == Claimed
    && g' == g.(target := Some(o), owners := g.owners[o := Published])
  }

  ghost predicate Open(g: Gate, g': Gate, o: nat) {
    && o in g.owners && g.owners[o] == Published
    && g' == g.(word := 0, owners := g.owners[o := Active])
  }

  ghost predicate Close(g: Gate, g': Gate, o: nat) {
    && o in g.owners && g.owners[o] == Active && g.owner.Some?
    && g' == g.(word := WithClosedBit(g.word), owners := g.owners[o := Closing])
  }

  ghost predicate SeeDrained(g: Gate, g': Gate, o: nat) {
    && o in g.owners && g.owners[o] == Closing && Readers(g.word) == 0
    && g' == g.(owners := g.owners[o := Drained])
  }

  ghost predicate ClearTarget(g: Gate, g': Gate, o: nat) {
    && o in g.owners && g.owners[o] == Drained
    && g' == g.(target := None, owners := g.owners[o := Cleared])
  }

  /** The last store of deactivate_and_wait, which then returns. */
  ghost predicate Release(g: Gate, g': Gate, o: nat) {
    && o in g.owners && g.owners[o] == Cleared
    && g' == g.(owner := None, owners := g.owners[o := Inactive])
  }

  // ---------------------------------------------------------------- steps of a callback

  ghost predicate LoadWord(g: Gate, g': Gate, t: nat) {
    && t in g.callbacks && g.callbacks[t] == Outside
    && g' == g.(callbacks := g.callbacks[t := Loaded(g.word)])
  }

  /** try_acquire returns nothing: the word it holds is closed or its count is full. */
  ghost predicate GiveUp(g: Gate, g': Gate, t: nat) {
    && t in g.callbacks && g.callbacks[t].Loaded?
    && (IsClosed(g.callbacks[t].word) || Readers(g.callbacks[t].word) == READER_MASK)
    && g' == g.(callbacks := g.callbacks[t := Outside])
  }

  ghost predicate ExchangeSucceeds(g: Gate, g': Gate, t: nat) {
    && t in g.callbacks && g.callbacks[t].Loaded?
    && !IsClosed(g.callbacks[t].word) && Readers(g.callbacks[t].word) != READER_MASK
    && g.word == g.callbacks[t].word
    && g' == g.(word := g.word + 1, callbacks := g.callbacks[t := Counted])
  }

  /** A failed exchange, spurious ones included, reloads the word. */
  ghost predicate ExchangeFails(g: Gate, g': Gate, t: nat) {
    && t in g.callbacks && g.callbacks[t].Loaded?
    && !IsClosed(g.callbacks[t].word) && Readers(g.callbacks[t].word) != READER_MASK
    && g' == g.(callbacks := g.callbacks[t := Loaded(g.word)])
  }

  /** The Reader is built from *target_. */
  ghost predicate Dereference(g: Gate, g': Gate, t: nat)
    requires Invariant(g)
  {
    && t in g.callbacks && g.callbacks[t] == Counted
    && (CountedSeesTarget(g, t); g' == g.(callbacks := g.callbacks[t := Reading(g.target.value)]))
  }

  /** The destructor of the Reader: fetch_sub on the state word. */
  ghost predicate Leave(g: Gate, g': Gate, t: nat)
    requires Invariant(g)
  {
    && t in g.callbacks && g.callbacks[t].Reading?
    && (LiveIsCounted(g, t); g' == g.(word := g.word - 1, callbacks := g.callbacks[t := Outside]))
  }

  // ---------------------------------------------------------------- the invariant

  /** What the shared words look like in each phase of the owning capture. */
  ghost predicate PhaseOk(g: Gate, o: nat, phase: Owner) {
    match phase
    case Inactive => true
    case Claimed => IsClosed(g.word) && Readers(g.word) == 0 && g.target == None
    case Published => IsClosed(g.word) && Readers(g.word) == 0 && g.target == Some(o)
    case Active => !IsClosed(g.word) && g.target == Some(o)
    case Closing => IsClosed(g.word) && g.target == Some(o)
    case Drained => IsClosed(g.word) && Readers(g.word) == 0 && g.target == Some(o)
    case Cleared => IsClosed(g.word) && Readers(g.word) == 0 && g.target == None
  }

  ghost predicate OwnersOk(g: Gate) {
    && (forall o | o in g.owners :: g.owners[o] != Inactive ==> g.owner == Some(o))
    && (g.owner.Some? ==>
          && g.owner.value in g.owners && g.owners[g.owner.value] != Inactive
          && PhaseOk(g, g.owner.value, g.owners[g.owner.value]))
    && (g.owner.None? ==> IsClosed(g.word) && Readers(g.word) == 0 && g.target == None)
  }

  ghost predicate Invariant(g: Gate) {
    && g.word < 2 * CLOSED_BIT
    && Readers(g.word) == |Live(g)|
    && OwnersOk(g)
    && (forall t | t in g.callbacks && g.callbacks[t].Reading? :: g.target == Some(g.callbacks[t].target))
  }

  lemma LiveIsCounted(g: Gate, t: nat)
    requires Invariant(g) && t in Live(g)
    ensures Readers(g.word) > 0
  {
  }

  lemma CountedSeesTarget(g: Gate, t: nat)
    requires Invariant(g) && t in Live(g)
    ensures g.target.Some? && g.owner == g.target
    ensures g.owners[g.owner.value] == Active || g.owners[g.owner.value] == Closing
  {
    LiveIsCounted(g, t);
  }

  // ---------------------------------------------------------------- every step keeps it

  ghost predicate CaptureStep(g: Gate, g': Gate, o: nat) {
    || Claim(g, g', o) || PublishTarget(g, g', o) || Open(g, g', o)
    || Close(g, g', o) || SeeDrained(g, g', o) || ClearTarget(g, g', o) || Release(g, g', o)
  }

  ghost predicate CallbackStep(g: Gate, g': Gate, t: nat)
    requires Invariant(g)
  {
    || LoadWord(g, g', t) || GiveUp(g, g', t) || ExchangeSucceeds(g, g', t)
    || ExchangeFails(g, g', t) || Dereference(g, g', t) || Leave(g, g', t)
  }

  ghost predicate Step(g: Gate, g': Gate)
    requires Invariant(g)
  {
    || (exists o :: CaptureStep(g, g', o))
    || (exists t :: CallbackStep(g, g', t))
  }

  lemma NoLiveBeforeOpening(g: Gate)
    requires Invariant(g) && Readers(g.word) == 0
    ensures Live(g) == {}
  {
  }

  lemma CaptureStepKeepsInvariant(g: Gate, g': Gate, o: nat)
    requires Invariant(g) && CaptureStep(g, g', o)
    ensures Invariant(g')
  {
    assert Live(g') == Live(g);
    assert g.owners[o] != Inactive ==> g.owner == Some(o);
    if Readers(g.word) == 0 {
      NoLiveBeforeOpening(g);
      forall t | t in g.callbacks ensures !g.callbacks[t].Reading? {
        assert t !in Live(g);
      }
    }
  }

  lemma EnteringKeepsInvariant(g: Gate, g': Gate, t: nat)
    requires Invariant(g) && ExchangeSucceeds(g, g', t)
    ensures Invariant(g')
  {
    assert Live(g') == Live(g) + {t};
  }

  lemma LeavingKeepsInvariant(g: Gate, g': Gate, t: nat)
    requires Invariant(g) && Leave(g, g', t)
    ensures Invariant(g')
  {
    LiveIsCounted(g, t);
    assert Live(g') == Live(g) - {t};
  }

  lemma DereferencingKeepsInvariant(g: Gate, g': Gate, t: nat)
    requires Invariant(g) && Dereference(g, g', t)
    ensures Invariant(g')
  {
    CountedSeesTarget(g, t);
    assert Live(g') == Live(g);
  }

  lemma TryingKeepsInvariant(g: Gate, g': Gate, t: nat)
    requires Invariant(g) && (LoadWord(g, g', t) || GiveUp(g, g', t) || ExchangeFails(g, g', t))
    ensures Invariant(g')
  {
    assert Live(g') == Live(g);
  }

  lemma CallbackStepKeepsInvariant(g: Gate, g': Gate, t: nat)
    requires Invariant(g) && CallbackStep(g, g', t)
    ensures Invariant(g')
  {
    hide Invariant, LoadWord, GiveUp, ExchangeSucceeds, ExchangeFails, Dereference, Leave;
    if ExchangeSucceeds(g, g', t) {
      EnteringKeepsInvariant(g, g', t);
    } else if Leave(g, g', t) {
      LeavingKeepsInvariant(g, g', t);
    } else if Dereference(g, g', t) {
      DereferencingKeepsInvariant(g, g', t);
    } else {
      TryingKeepsInvariant(g, g', t);
    }
  }

  lemma StepKeepsInvariant(g: Gate, g': Gate)
    requires Invariant(g) && Step(g, g')
    ensures Invariant(g')
  {
    if o :| CaptureStep(g, g', o) {
      CaptureStepKeepsInvariant(g, g', o);
    } else {
      var t :| CallbackStep(g, g', t);
      CallbackStepKeepsInvariant(g, g', t);
    }
  }

  // ---------------------------------------------------------------- runs

  /** The static gate of the process: closed, unowned, everyone outside. */
  ghost predicate Init(g: Gate) {
    && g.word == CLOSED_BIT && g.owner == None && g.target == None
    && (forall o | o in g.owners :: g.owners[o] == Inactive)
    && (forall t | t in g.callbacks :: g.callbacks[t] == Outside)
  }

  ghost predicate IsRun(run: seq<Gate>) {
    && run != [] && Init(run[0])
    && forall i: nat | i + 1 < |run| :: Invariant(run[i]) ==> Step(run[i], run[i + 1])
  }

  /** The word has 32 bits: the closed bit, and 31 bits in which the live readers are counted. */
  lemma WordCountsReaders(run: seq<Gate>, i: nat)
    requires IsRun(run) && i < |run|
    ensures run[i].word < 0x1_0000_0000 && run[i].word % 0x8000_0000 == |Live(run[i])|
    ensures IsClosed(run[i].word) <==> run[i].word / 0x8000_0000 == 1
  {
    RunKeepsInvariant(run, i);
  }

  lemma {:induction false} RunKeepsInvariant(run: seq<Gate>, i: nat)
    requires IsRun(run) && i < |run|
    ensures Invariant(run[i])
  {
    if i == 0 {
      assert Live(run[0]) == {};
    } else {
      RunKeepsInvariant(run, i - 1);
      assert Step(run[i - 1], run[i - 1 + 1]);
      StepKeepsInvariant(run[i - 1], run[i]);
    }
  }

  /**
   In every run a live Reader holds the published target of the one owning capture, which has
   not finished draining; and the low bits of the word count the live readers.
   */
  lemma ReadersHoldThePublishedTarget(run: seq<Gate>, i: nat, t: nat)
    requires IsRun(run) && i < |run|
    ensures var g := run[i];
      && Readers(g.word) == |Live(g)| <= READER_MASK
      && (t in g.callbacks && g.callbacks[t].Reading? ==>
            var o := g.callbacks[t].target;
            && g.target == Some(o) && g.owner == Some(o)
            && o in g.owners && (g.owners[o] == Active || g.owners[o] == Closing))
  {
    RunKeepsInvariant(run, i);
    var g := run[i];
    if t in g.callbacks && g.callbacks[t].Reading? {
      assert t in Live(g);
      CountedSeesTarget(g, t);
    }
  }

  /** deactivate_and_wait returns only when no callback is counted, let alone holds a Reader. */
  lemma DeactivateReturnsDrained(run: seq<Gate>, i: nat, o: nat)
    requires IsRun(run) && i + 1 < |run|
    requires o in run[i].owners && run[i].owners[o] == Cleared && Release(run[i], run[i + 1], o)
    ensures Live(run[i]) == {} && Live(run[i + 1]) == {}
    ensures run[i + 1].owner == None && run[i + 1].target == None && IsClosed(run[i + 1].word)
  {
    RunKeepsInvariant(run, i);
    RunKeepsInvariant(run, i + 1);
  }

  /** While the gate is closing nobody new gets in, so waiting ends when the callbacks leave. */
  lemma ClosingOnlyDrains(g: Gate, g': Gate, o: nat)
    requires Invariant(g) && Step(g, g') && o in g.owners && g.owners[o] == Closing
    ensures Live(g') <= Live(g)
    ensures o in g'.owners && (g'.owners[o] == Closing || g'.owners[o] == Drained)
  {
    if c :| CaptureStep(g, g', c) {
      assert Live(g') == Live(g);
      assert g.owners[c] != Inactive ==> g.owner == Some(c);
    } else {
      var t :| CallbackStep(g, g', t);
      assert Live(g') <= Live(g);
    }
  }

  /** Two captures never own the gate at once; a second try_activate is refused. */
  lemma OneOwner(run: seq<Gate>, i: nat, o: nat, o': nat)
    requires IsRun(run) && i < |run|
    requires o in run[i].owners && run[i].owners[o] != Inactive
    requires o' in run[i].owners && run[i].owners[o'] != Inactive
    ensures o == o'
  {
    RunKeepsInvariant(run, i);
  }
}
