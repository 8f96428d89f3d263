/**
 * The player state of MagicPlayer.java that the search and the priority
 * event rely on: state flags kept as bits of a 32-bit int, the hand-size
 * limit, the state-based losses, the per-turn reset of the Player layer,
 * the mana-producing subset of the permanents, the redealing of a hidden
 * hand, and the position hash getPlayerId folds in 64-bit arithmetic.
 *
 * MagicCardList is a list whose top is its last element; MagicPermanentSet
 * is a set.  Both are modelled as values the methods reassign.
 */
module Player {
  const INT_MAX: int := 0x7fff_ffff
  const LOSING_POISON: int := 10
  const ID_FACTOR: int := 31
  const DEFAULT_MAX_HAND_SIZE: int := 7

  /* ---------------------------------------------------------------- */
  /* Java integer widths                                              */
  /* ---------------------------------------------------------------- */

  const TWO_32: int := 0x1_0000_0000
  const TWO_64: int := 0x1_0000_0000_0000_0000

  predicate IsInt32(x: int) { -TWO_32 / 2 <= x < TWO_32 / 2 }
  predicate IsInt64(x: int) { -TWO_64 / 2 <= x < TWO_64 / 2 }

  /** Two's-complement wrap-around to a Java int. */
  function Wrap32(x: int): (r: int)
    ensures IsInt32(r) && (IsInt32(x) ==> r == x)
  {
    (x + TWO_32 / 2) % TWO_32 - TWO_32 / 2
  }

  /** Two's-complement wrap-around to a Java long. */
  function Wrap64(x: int): (r: int)
    ensures IsInt64(r) && (IsInt64(x) ==> r == x)
  {
    (x + TWO_64 / 2) % TWO_64 - TWO_64 / 2
  }

  /** Java's x++ and x-- on an int. */
  function Inc32(x: int): int { Wrap32(x + 1) }
  function Dec32(x: int): int { Wrap32(x - 1) }

  /** decDrawnCards undoes incDrawnCards, across the wrap-around too. */
  lemma DecUndoesInc(x: int)
    requires IsInt32(x)
    ensures Dec32(Inc32(x)) == x && Inc32(Dec32(x)) == x
  {
    if x == TWO_32 / 2 - 1 {
      assert Inc32(x) == -TWO_32 / 2;
    } else if x == -TWO_32 / 2 {
      assert Dec32(x) == TWO_32 / 2 - 1;
    }
  }

  /* ---------------------------------------------------------------- */
  /* State flags                                                      */
  /* ---------------------------------------------------------------- */

  /** A single set bit. */
  predicate IsBit(b: bv32) { b != 0 && b & (b - 1) == 0 }

  /** The mask of a MagicPlayerState: one bit below the sign bit. */
  type StateMask = m: bv32 | IsBit(m) && m < 0x8000_0000 witness 1

  const SIGN_BIT: bv32 := 0x8000_0000

  /** stateFlags |= mask */
  function SetState(f: bv32, m: StateMask): bv32 { f | m }

  /** stateFlags &= Integer.MAX_VALUE - mask */
  function ClearState(f: bv32, m: StateMask): bv32 { f & (0x7fff_ffff - m) }

  /** state.hasState(stateFlags) */
  predicate HasState(f: bv32, m: StateMask) { f & m != 0 }

  /** Two single bits overlap only when they are the same bit. */
  lemma BitsMeet(a: bv32, b: bv32)
    requires IsBit(a) && IsBit(b)
    ensures a & b != 0 <==> a == b
  {
  }

  /** Setting a state sets its bit and no other. */
  lemma SetStateBits(f: bv32, m: StateMask, b: bv32)
    requires IsBit(b)
    ensures SetState(f, m) & b != 0 <==> f & b != 0 || b == m
  {
    BitsMeet(m, b);
  }

  /**
   * Clearing a state clears its bit and the sign bit (the mask is
   * subtracted from Integer.MAX_VALUE) and keeps every other bit.
   */
  lemma ClearStateBits(f: bv32, m: StateMask, b: bv32)
    requires IsBit(b)
    ensures ClearState(f, m) & b != 0 <==> f & b != 0 && b != m && b != SIGN_BIT
  {
    BitsMeet(m, b);
  }

  /* ---------------------------------------------------------------- */
  /* Cards, permanents, layers, losses                                */
  /* ---------------------------------------------------------------- */

  datatype Card = Card(id: nat)

  datatype Permanent = Permanent(id: nat, producesMana: bool)

  /** The subset of permanents that produce mana. */
  function ManaOf(ps: set<Permanent>): set<Permanent>
  {
    set q | q in ps && q.producesMana
  }

  /** MagicLayer: the Player layer, or any other. */
  datatype Layer = PlayerLayer | OtherLayer(name: string)

  /** MagicLoseGameAction's reasons. */
  datatype LoseReason = LifeReason | PoisonReason

  datatype Ability = Ability(name: string)

  /** The player's unique id (getId): 1000000000 plus the index. */
  function Id(index: int): (r: int)
    ensures r - index == 1000000000
  {
    1000000000 + index
  }

  /** Distinct players have distinct ids. */
  lemma IdsDistinct(i: int, j: int)
    requires i != j
    ensures Id(i) != Id(j)
  {
  }

  /* ---------------------------------------------------------------- */
  /* Redealing the hand                                               */
  /* ---------------------------------------------------------------- */

  function Reverse(s: seq<Card>): (r: seq<Card>)
  {
    if s == [] then [] else Reverse(s[1..]) + [s[0]]
  }

  lemma {:induction false} ReverseFacts(s: seq<Card>)
    ensures |Reverse(s)| == |s| && multiset(Reverse(s)) == multiset(s)
    ensures forall i :: 0 <= i < |s| ==> Reverse(s)[i] == s[|s| - 1 - i]
  {
    if s != [] {
      ReverseFacts(s[1..]);
      assert s == [s[0]] + s[1..];
      var r := Reverse(s);
      forall i | 0 <= i < |s| ensures r[i] == s[|s| - 1 - i] {
        if i < |s| - 1 {
          assert r[i] == Reverse(s[1..])[i];
        }
      }
    }
  }

  /** A shuffle: rearranges its argument and nothing more. */
  ghost predicate Permutes(shuffle: seq<Card> -> seq<Card>)
  {
    forall s :: multiset(shuffle(s)) == multiset(s)
  }

  /** Dealing n cards off the top of s, each onto the top of the hand: (hand, rest). */
  function DealOut(s: seq<Card>, n: nat): (seq<Card>, seq<Card>)
    requires n <= |s|
  {
    (Reverse(s[|s| - n..]), s[..|s| - n])
  }

  /** Dealing keeps the cards: the hand gets n of them and the rest keeps the others. */
  lemma DealOutKeepsCards(s: seq<Card>, n: nat)
    requires n <= |s|
    ensures |DealOut(s, n).0| == n && |DealOut(s, n).1| == |s| - n
    ensures multiset(DealOut(s, n).0) + multiset(DealOut(s, n).1) == multiset(s)
  {
    ReverseFacts(s[|s| - n..]);
    assert s == s[..|s| - n] + s[|s| - n..];
  }

  /** Shuffling the library with the hand on top keeps the cards of both. */
  lemma ShuffleKeepsCards(hand: seq<Card>, library: seq<Card>, shuffle: seq<Card> -> seq<Card>)
    requires Permutes(shuffle)
    ensures |shuffle(library + Reverse(hand))| == |library| + |hand|
    ensures multiset(shuffle(library + Reverse(hand))) == multiset(hand) + multiset(library)
  {
    ReverseFacts(hand);
    var x := library + Reverse(hand);
    assert multiset(shuffle(x)) == multiset(x);
    calc {
      |shuffle(x)|;
      |multiset(shuffle(x))|;
      |multiset(x)|;
      |x|;
    }
    assert multiset(x) == multiset(library) + multiset(Reverse(hand));
  }

  /**
   * showRandomizedHandAndLibrary on values: the hand goes on top of the
   * library card by card, the library is shuffled, and as many cards as the
   * hand held are dealt back from the top.  The result is (hand, library).
   */
  function Redeal(hand: seq<Card>, library: seq<Card>, shuffle: seq<Card> -> seq<Card>): (seq<Card>, seq<Card>)
    requires Permutes(shuffle)
  {
    ShuffleKeepsCards(hand, library, shuffle);
    DealOut(shuffle(library + Reverse(hand)), |hand|)
  }

  /** Redealing keeps the hand size, and the hand and library together hold the same cards. */
  lemma RedealKeepsCards(hand: seq<Card>, library: seq<Card>, shuffle: seq<Card> -> seq<Card>)
    requires Permutes(shuffle)
    ensures |Redeal(hand, library, shuffle).0| == |hand| && |Redeal(hand, library, shuffle).1| == |library|
    ensures multiset(Redeal(hand, library, shuffle).0) + multiset(Redeal(hand, library, shuffle).1)
              == multiset(hand) + multiset(library)
  {
    ShuffleKeepsCards(hand, library, shuffle);
    DealOutKeepsCards(shuffle(library + Reverse(hand)), |hand|);
  }

  /** The hand's cards go on top of the library one at a time, top card first. */
  method ReturnHand(hand: seq<Card>, library: seq<Card>) returns (lib: seq<Card>)
    ensures lib == library + Reverse(hand)
  {
    var h := hand;
    lib := library;
    while |h| > 0
      invariant h == hand[..|h|]
      invariant lib == library + Reverse(hand[|h|..])
    {
      var card := h[|h| - 1];
      assert hand[|h| - 1..][1..] == hand[|h|..];
      h := h[..|h| - 1];
      lib := lib + [card];
    }
    assert hand[0..] == hand;
  }

  /** Deals n cards from the top of the library, each onto the top of the hand. */
  method Deal(library: seq<Card>, n: nat) returns (hand: seq<Card>, lib: seq<Card>)
    requires n <= |library|
    ensures hand == Reverse(library[|library| - n..]) && lib == library[..|library| - n]
  {
    hand, lib := [], library;
    for i := 0 to n
      invariant lib == library[..|library| - i]
      invariant hand == Reverse(library[|library| - i..])
    {
      var card := lib[|lib| - 1];
      assert library[|library| - i - 1..][1..] == library[|library| - i..];
      lib := lib[..|lib| - 1];
      hand := hand + [card];
    }
  }

  /** The three steps of the redeal, on the hand and the library as values. */
  method RedealHand(hand: seq<Card>, library: seq<Card>, shuffle: seq<Card> -> seq<Card>)
    returns (h: seq<Card>, lib: seq<Card>)
    requires Permutes(shuffle)
    ensures (h, lib) == Redeal(hand, library, shuffle)
  {
    var handSize := |hand|;
    lib := ReturnHand(hand, library);
    ShuffleKeepsCards(hand, library, shuffle);
    lib := shuffle(lib);
    h, lib := Deal(lib, handSize);
  }

  /* ---------------------------------------------------------------- */
  /* getPlayerId                                                      */
  /* ---------------------------------------------------------------- */

  /**
   * The keys getPlayerId folds in after the player's life and poison, in
   * order: the minimum amount of the builder cost, and the state ids of the
   * permanents, the hand and the graveyard.  The exile is not one of them.
   */
  datatype IdKeys = IdKeys(minMana: int, permanentsId: int, handId: int, graveyardId: int)

  function KeyList(life: int, poison: int, k: IdKeys): seq<int>
  {
    [life, poison, k.minMana, k.permanentsId, k.handId, k.graveyardId]
  }

  /** The base-31 Horner fold over unbounded integers. */
  function Horner(acc: int, keys: seq<int>): int
    decreases |keys|
  {
    if keys == [] then acc else Horner(acc * ID_FACTOR + keys[0], keys[1..])
  }

  /** The same fold with every step wrapped to a long, as Java computes it. */
  function HornerLong(acc: int, keys: seq<int>): int
    decreases |keys|
  {
    if keys == [] then acc else HornerLong(Wrap64(acc * ID_FACTOR + keys[0]), keys[1..])
  }

  lemma Wrap64Shift(x: int, t: int)
    ensures Wrap64(x + TWO_64 * t) == Wrap64(x)
  {
  }

  /** Wrapping an intermediate value does not change the wrapped result of the next step. */
  lemma WrapStep(a: int, k: int)
    ensures Wrap64(Wrap64(a) * ID_FACTOR + k) == Wrap64(a * ID_FACTOR + k)
  {
    var q := (a + TWO_64 / 2) / TWO_64;
    assert Wrap64(a) == a - TWO_64 * q;
    assert Wrap64(a) * ID_FACTOR + k == (a * ID_FACTOR + k) + TWO_64 * (-q * ID_FACTOR);
    Wrap64Shift(a * ID_FACTOR + k, -q * ID_FACTOR);
  }

  /** Folding with a wrap at every step gives the unbounded fold, wrapped once. */
  lemma {:induction false} HornerLongWraps(acc: int, keys: seq<int>)
    ensures HornerLong(Wrap64(acc), keys) == Wrap64(Horner(acc, keys))
    decreases |keys|
  {
    if keys != [] {
      WrapStep(acc, keys[0]);
      HornerLongWraps(acc * ID_FACTOR + keys[0], keys[1..]);
    }
  }

  /* ---------------------------------------------------------------- */
  /* The player                                                       */
  /* ---------------------------------------------------------------- */

  /**
   * The fields of a player as one value (the index is a constant and is not
   * part of it).  libraryKnown is the library's known flag, which
   * showRandomizedHandAndLibrary sets.
   */
  datatype PlayerState = PlayerState(
    life: int,
    poison: int,
    stateFlags: bv32,
    drawnCards: int,
    maxHandSize: int,
    hand: seq<Card>,
    library: seq<Card>,
    libraryKnown: bool,
    permanents: set<Permanent>,
    manaPermanents: set<Permanent>,
    abilityFlags: set<Ability>)

  /** The player's invariant, on the value. */
  predicate ValidState(st: PlayerState)
  {
    && st.manaPermanents == ManaOf(st.permanents)
    && 0 <= st.maxHandSize <= INT_MAX
    && IsInt32(st.drawnCards)
  }

  class Player {
    const index: int
    var life: int
    var poison: int
    var stateFlags: bv32
    var drawnCards: int
    var maxHandSize: int
    /** The hand; its top is its last card. */
    var hand: seq<Card>
    /** The library; its top is its last card. */
    var library: seq<Card>
    var libraryKnown: bool
    var permanents: set<Permanent>
    var manaPermanents: set<Permanent>
    var abilityFlags: set<Ability>

    /** The fields as a PlayerState value. */
    function State(): PlayerState
      reads this
    {
      PlayerState(life, poison, stateFlags, drawnCards, maxHandSize, hand, library, libraryKnown,
                  permanents, manaPermanents, abilityFlags)
    }

    ghost predicate Valid()
      reads this
    {
      ValidState(State())
    }

    /** A new player: the given life, everything else empty or zero. */
    constructor (aLife: int, aIndex: int)
      ensures Valid() && index == aIndex && life == aLife
      ensures poison == 0 && stateFlags == 0 && drawnCards == 0 && maxHandSize == 0
      ensures hand == [] && library == [] && permanents == {} && manaPermanents == {} && abilityFlags == {}
    {
      index := aIndex;
      life := aLife;
      poison := 0;
      stateFlags := 0;
      drawnCards := 0;
      maxHandSize := 0;
      hand := [];
      library := [];
      libraryKnown := false;
      permanents := {};
      manaPermanents := {};
      abilityFlags := {};
    }

    function GetId(): (r: int)
      reads this
      ensures r == Id(index)
    {
      1000000000 + index
    }

    /** setState: the mask's bit is set, every other bit and every other field stays. */
    method SetStateOf(m: StateMask)
      requires Valid()
      modifies this
      ensures Valid() && HasState(stateFlags, m)
      ensures State() == old(State()).(stateFlags := SetState(old(stateFlags), m))
    {
      stateFlags := stateFlags | m;
      SetStateBits(old(stateFlags), m, m);
    }

    /** clearState: the mask's bit (and the sign bit) is cleared, every other field stays. */
    method ClearStateOf(m: StateMask)
      requires Valid()
      modifies this
      ensures Valid() && !HasState(stateFlags, m)
      ensures State() == old(State()).(stateFlags := ClearState(old(stateFlags), m))
    {
      stateFlags := stateFlags & (0x7fff_ffff - m);
      ClearStateBits(old(stateFlags), m, m);
    }

    predicate HasStateOf(m: StateMask)
      reads this
    {
      HasState(stateFlags, m)
    }

    /** getNumExcessCards: how many cards the hand holds beyond the limit. */
    function NumExcessCards(): (r: int)
      reads this
      requires Valid()
      ensures r >= 0 && (r > 0 <==> |hand| > maxHandSize)
      ensures r > 0 ==> r + maxHandSize == |hand|
    {
      if |hand| - maxHandSize > 0 then |hand| - maxHandSize else 0
    }

    /** noMaxHandSize: the limit becomes Integer.MAX_VALUE. */
    method NoMaxHandSize()
      requires Valid()
      modifies this
      ensures Valid() && State() == old(State()).(maxHandSize := INT_MAX)
      ensures |hand| <= INT_MAX ==> NumExcessCards() == 0
    {
      maxHandSize := INT_MAX;
    }

    /**
     * generateStateBasedActions: the losses handed to the game's delayed
     * actions, life before poison.  Nothing of the player changes.
     */
    method GenerateStateBasedActions() returns (losses: seq<LoseReason>)
      ensures (LifeReason in losses <==> life <= 0) && (PoisonReason in losses <==> poison >= LOSING_POISON)
      ensures |losses| <= 2 && (life <= 0 ==> losses[0] == LifeReason)
      ensures forall i, j :: 0 <= i < j < |losses| ==> losses[i] != losses[j]
    {
      losses := [];
      if life <= 0 {
        losses := losses + [LifeReason];
      }
      if poison >= LOSING_POISON {
        losses := losses + [PoisonReason];
      }
    }

    /**
     * apply(layer): the Player layer clears the cached abilities and the
     * state flags and sets the hand limit back to seven; any other layer is
     * an error (ok false) and changes nothing.
     */
    method Apply(layer: Layer) returns (ok: bool)
      requires Valid()
      modifies this
      ensures Valid() && (ok <==> layer.PlayerLayer?)
      ensures ok ==> State() == old(State()).(abilityFlags := {}, stateFlags := 0, maxHandSize := DEFAULT_MAX_HAND_SIZE)
      ensures !ok ==> State() == old(State())
    {
      if layer.PlayerLayer? {
        abilityFlags := {};
        stateFlags := 0;
        maxHandSize := DEFAULT_MAX_HAND_SIZE;
        ok := true;
      } else {
        ok := false;
      }
    }

    /**
     * addPermanent: adding one already present is an assertion error (ok
     * false, nothing changes); a mana producer also joins manaPermanents.
     */
    method AddPermanent(p: Permanent) returns (ok: bool)
      requires Valid()
      modifies this
      ensures Valid() && (ok <==> p !in old(permanents))
      ensures State() == old(State()).(permanents := old(permanents) + {p},
                                       manaPermanents := old(manaPermanents) + (if p.producesMana then {p} else {}))
    {
      ok := p !in permanents;
      permanents := permanents + {p};
      if ok && p.producesMana {
        manaPermanents := manaPermanents + {p};
      }
    }

    /**
     * removePermanent: removing one that is absent is an assertion error
     * (ok false, nothing changes); a mana producer also leaves manaPermanents.
     */
    method RemovePermanent(p: Permanent) returns (ok: bool)
      requires Valid()
      modifies this
      ensures Valid() && (ok <==> p in old(permanents))
      ensures State() == old(State()).(permanents := old(permanents) - {p},
                                       manaPermanents := old(manaPermanents) - {p})
    {
      ok := p in permanents;
      permanents := permanents - {p};
      if ok && p.producesMana {
        manaPermanents := manaPermanents - {p};
      }
    }

    /** incDrawnCards: drawnCards++ on a Java int; nothing else changes. */
    method IncDrawnCards()
      requires Valid()
      modifies this
      ensures Valid() && State() == old(State()).(drawnCards := Inc32(old(drawnCards)))
    {
      drawnCards := Wrap32(drawnCards + 1);
    }

    /** decDrawnCards: drawnCards-- on a Java int; nothing else changes. */
    method DecDrawnCards()
      requires Valid()
      modifies this
      ensures Valid() && State() == old(State()).(drawnCards := Dec32(old(drawnCards)))
    {
      drawnCards := Wrap32(drawnCards - 1);
    }

    /**
     * showRandomizedHandAndLibrary: the hand is put back on the library one
     * top card at a time, the library is shuffled and marked known, and as
     * many cards as the hand held are dealt back to it from the top of the
     * library.
     */
    method ShowRandomizedHandAndLibrary(shuffle: seq<Card> -> seq<Card>)
      requires Valid() && Permutes(shuffle)
      modifies this
      ensures Valid()
      ensures State() == old(State()).(hand := Redeal(old(hand), old(library), shuffle).0,
                                       library := Redeal(old(hand), old(library), shuffle).1,
                                       libraryKnown := true)
      ensures |hand| == |old(hand)|
      ensures multiset(hand) + multiset(library) == multiset(old(hand)) + multiset(old(library))
    {
      var h, lib := RedealHand(hand, library, shuffle);
      RedealKeepsCards(hand, library, shuffle);
      hand, library, libraryKnown := h, lib, true;
    }

    /**
     * getPlayerId: the hash of the position this player contributes to the
     * game's id, folding its life, its poison and the other keys into id
     * with factor 31 in long arithmetic.
     */
    method GetPlayerId(id: int, keys: IdKeys) returns (playerId: int)
      requires IsInt64(id)
      ensures playerId == HornerLong(id, KeyList(life, poison, keys))
      ensures playerId == Wrap64(Horner(id, KeyList(life, poison, keys)))
    {
      ghost var ks := KeyList(life, poison, keys);
      playerId := id;
      playerId := Wrap64(playerId * ID_FACTOR + life);
      assert HornerLong(id, ks) == HornerLong(playerId, ks[1..]);
      playerId := Wrap64(playerId * ID_FACTOR + poison);
      assert HornerLong(id, ks) == HornerLong(playerId, ks[2..]);
      playerId := Wrap64(playerId * ID_FACTOR + keys.minMana);
      assert HornerLong(id, ks) == HornerLong(playerId, ks[3..]);
      playerId := Wrap64(playerId * ID_FACTOR + keys.permanentsId);
      assert HornerLong(id, ks) == HornerLong(playerId, ks[4..]);
      playerId := Wrap64(playerId * ID_FACTOR + keys.handId);
      assert HornerLong(id, ks) == HornerLong(playerId, ks[5..]);
      playerId := Wrap64(playerId * ID_FACTOR + keys.graveyardId);
      assert HornerLong(id, ks) == HornerLong(playerId, ks[6..]);
      HornerLongWraps(id, ks);
    }
  }
}
