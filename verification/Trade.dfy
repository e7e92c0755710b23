/** Trading between two players: who trades with whom, what is on offer, and who has agreed. */
module Trade {

  datatype TradeState = None | Initiated | Accept | Acknowledge | Transfer

  class Item {
    var references: int
    /** References that are no business of the trade's. */
    ghost var held: int
  }

  class Player {
    const id: nat
    var tradePartner: Player?
    var tradeItem: Item?
    var tradeState: TradeState

    constructor (id: nat)
      ensures this.id == id && tradePartner == null && tradeItem == null && tradeState == None
    {
      this.id := id;
      tradePartner, tradeItem, tradeState := null, null, None;
    }
  }

  /** What an acceptance leads to. */
  datatype Answer = Ignored | Waiting | Cancelled | Completed(success: bool)

  /** Whether one item, a container, has another one somewhere inside. */
  type Nesting = (Item, Item) -> bool

  class Game {
    var players: map<nat, Player>
    var tradeItems: map<Item, nat>
    ghost var all: set<Player>
    var toRelease: seq<Item>
    ghost var items: set<Item>

    /** A player is idle, or has a partner whose partner it is; one of the two has something on offer. */
    ghost predicate Matched(p: Player)
      reads `all, all, p
    {
      (p.tradePartner == null <==> p.tradeState.None?) &&
      (p.tradeState.None? || p.tradeState.Acknowledge? ==> p.tradeItem == null) &&
      (p.tradeState.Initiated? ==> p.tradeItem != null) &&
      (p.tradePartner != null ==>
        var q: Player := p.tradePartner;
        q in all && q != p && q.tradePartner == p &&
        (p.tradeItem != null || q.tradeItem != null) &&
        (p.tradeState.Transfer? <==> q.tradeState.Transfer?))
    }

    ghost predicate Matching()
      reads `players, `all, all
    {
      (forall id <- players :: players[id] in all && players[id].id == id) &&
      forall p <- all :: p.id in players && players[p.id] == p && Matched(p)
    }

    /** The table of traded items is exactly the offers and their owners, but for those changing hands. */
    ghost predicate Offers()
      reads `players, `all, `tradeItems, all
    {
      AllListed() && AllOwned()
    }

    ghost predicate AllListed()
      reads `all, `tradeItems, all
    {
      forall p <- all :: p.tradeItem != null && !p.tradeState.Transfer? ==> Listed(p, p.tradeItem)
    }

    ghost predicate AllOwned()
      reads `players, `all, `tradeItems, all
    {
      forall x <- tradeItems :: Owned(x, tradeItems[x])
    }

    ghost predicate Listed(p: Player, x: Item)
      reads `tradeItems
    {
      x in tradeItems && tradeItems[x] == p.id
    }

    ghost predicate Owned(x: Item, id: nat)
      reads `players, `all, all
    {
      id in players && players[id] in all && players[id].tradeItem == x && !players[id].tradeState.Transfer?
    }

    /** Nothing of the player's is changing hands or is about to. */
    ghost predicate Quiet(p: Player)
      reads p, if p.tradePartner == null then {} else {p.tradePartner}
    {
      !p.tradeState.Transfer? &&
      !(p.tradeState.Accept? && p.tradePartner != null && p.tradePartner.tradeState.Accept?)
    }

    ghost predicate AllQuiet()
      reads `all, all, set p | p in all && p.tradePartner != null :: p.tradePartner
    {
      forall p <- all :: Quiet(p)
    }

    /** Between two requests everybody is quiet. */
    ghost predicate AtRest()
      reads this, all, items, set p | p in all && p.tradePartner != null :: p.tradePartner
    {
      Valid() && AllQuiet()
    }

    /** Every reference is accounted for: one for an item on offer, one for each release still to come. */
    ghost predicate Ledger()
      reads `tradeItems, `toRelease, `items, items`references, items`held
    {
      (forall x <- toRelease :: x in items) && (forall x <- tradeItems :: x in items) &&
      forall x <- items ::
        x.references == x.held + (if x in tradeItems then 1 else 0) + multiset(toRelease)[x]
    }

    ghost predicate Valid()
      reads this, all, items
    {
      Matching() && Offers() && Ledger()
    }

    /** No item on offer has another one inside. */
    ghost predicate Separate(holds: Nesting)
      reads `tradeItems
    {
      forall x, y | x in tradeItems && y in tradeItems && x != y :: !holds(x, y)
    }

    constructor ()
      ensures AtRest() && players == map[] && tradeItems == map[] && items == {}
    {
      players, tradeItems, toRelease, items, all := map[], map[], [], {}, {};
    }

    /** Takes an item off the table, if it is there. */
    method Withdraw(item: Item?)
      requires Ledger()
      modifies `tradeItems, `toRelease
      ensures Ledger()
      ensures tradeItems == (map x | x in old(tradeItems) && x != item :: old(tradeItems)[x])
      ensures toRelease == old(toRelease) + if item != null && item in old(tradeItems) then [item] else []
    {
      if item != null && item in tradeItems {
        toRelease := toRelease + [item];
        tradeItems := map x | x in tradeItems && x != item :: tradeItems[x];
      }
    }

    /** What a player knows of a trade. */
    ghost function StateOf(p: Player): (Player?, Item?, TradeState)
      reads p
    {
      (p.tradePartner, p.tradeItem, p.tradeState)
    }

    ghost predicate Idle(p: Player)
      reads p
    {
      StateOf(p) == (null, null, None)
    }

    /** The table without the offers of a player and of the partner. */
    ghost function TableWithout(p: Player): map<Item, nat>
      reads `tradeItems, p, if p.tradePartner == null then {} else {p.tradePartner}
    {
      map x | x in tradeItems && x != p.tradeItem && (p.tradePartner == null || x != p.tradePartner.tradeItem) :: tradeItems[x]
    }

    /** What a player has on the table. */
    ghost function OnTable(p: Player?): seq<Item>
      reads `tradeItems, p
    {
      if p != null && p.tradeItem != null && p.tradeItem in tradeItems then [p.tradeItem] else []
    }

    /** What a player and the partner have on the table. */
    ghost function BothOnTable(p: Player): seq<Item>
      reads `tradeItems, p, p.tradePartner
    {
      OnTable(p) + OnTable(p.tradePartner)
    }

    /** Takes the offers of both sides off the table. */
    method WithdrawBoth(p: Player)
      requires Ledger() && (p.tradePartner != null && p.tradeItem != null ==> p.tradePartner.tradeItem != p.tradeItem)
      modifies `tradeItems, `toRelease
      ensures Ledger()
      ensures tradeItems == old(TableWithout(p))
      ensures toRelease == old(toRelease + BothOnTable(p))
    {
      hide Ledger;
      Withdraw(p.tradeItem);
      if p.tradePartner != null {
        Withdraw(p.tradePartner.tradeItem);
      }
    }

    /** Makes both sides idle. */
    method Part(p: Player)
      requires Matching() && p in all
      modifies all
      ensures Matching() && Idle(p)
      ensures old(p.tradePartner) != null ==> Idle(old(p.tradePartner))
      ensures forall q <- all | q != p && q != old(p.tradePartner) :: StateOf(q) == old(StateOf(q))
    {
      var partner := p.tradePartner;
      p.tradeItem := null;
      p.tradeState := None;
      p.tradePartner := null;
      if partner != null {
        partner.tradeItem := null;
        partner.tradeState := None;
        partner.tradePartner := null;
      }
    }

    /** Whether a player's trade is in the middle of the transfer; then it cannot be closed. */
    ghost predicate Transferring(p: Player)
      reads p, if p.tradePartner == null then {} else {p.tradePartner}
    {
      p.tradeState.Transfer? || (p.tradePartner != null && p.tradePartner.tradeState.Transfer?)
    }

    /** Ends a trade for both sides, unless it is being carried out; each item on offer is released once. */
    method InternalCloseTrade(player: Player)
      requires Valid() && player in all
      modifies `tradeItems, `toRelease, all
      ensures Valid()
      ensures old(Transferring(player)) ==>
        tradeItems == old(tradeItems) && toRelease == old(toRelease) &&
        forall q <- all :: StateOf(q) == old(StateOf(q))
      ensures !old(Transferring(player)) ==> Closed(player, old(player.tradePartner)) && tradeItems == old(TableWithout(player))
      ensures !old(Transferring(player)) ==> toRelease == old(toRelease + BothOnTable(player))
      ensures forall q <- all | q != player && q != old(player.tradePartner) :: StateOf(q) == old(StateOf(q))
    {
      hide Ledger, Matching, Offers, BothOnTable, TableWithout, Closed;
      var partner := player.tradePartner;
      if (partner != null && partner.tradeState == Transfer) || player.tradeState == Transfer {
        return;
      }
      TakeApart(player);
    }

    /** Both offers are withdrawn and both sides are idle. */
    method TakeApart(player: Player)
      requires Valid() && player in all && !Transferring(player)
      modifies `tradeItems, `toRelease, all
      ensures Valid() && Closed(player, old(player.tradePartner)) && tradeItems == old(TableWithout(player))
      ensures toRelease == old(toRelease + BothOnTable(player))
      ensures forall q <- all | q != player && q != old(player.tradePartner) :: StateOf(q) == old(StateOf(q))
    {
      DifferentOffers(player);
      OthersOfferOthers(player);
      ghost var partner := player.tradePartner;
      hide Ledger, Matching, BothOnTable, AllOwned, Closed;
      ClearTable(player);
      ClosedOffersNothing(player, partner);
    }

    lemma ClosedOffersNothing(p: Player, q: Player?)
      requires Closed(p, q)
      ensures p.tradeItem == null && (q != null ==> q.tradeItem == null)
    {
    }

    method ClearTable(player: Player)
      requires Matching() && AllOwned() && Ledger() && player in all
      requires player.tradePartner != null && player.tradeItem != null ==> player.tradePartner.tradeItem != player.tradeItem
      modifies `tradeItems, `toRelease, all
      ensures Matching() && AllOwned() && Ledger()
      ensures Closed(player, old(player.tradePartner)) && tradeItems == old(TableWithout(player))
      ensures toRelease == old(toRelease + BothOnTable(player))
      ensures forall q <- all | q != player && q != old(player.tradePartner) :: StateOf(q) == old(StateOf(q))
    {
      hide Ledger, Matching, BothOnTable;
      WithdrawBoth(player);
      Part(player);
    }

    lemma DifferentOffers(p: Player)
      requires Matching() && Offers() && p in all
      ensures !Transferring(p) && p.tradePartner != null && p.tradeItem != null ==> p.tradePartner.tradeItem != p.tradeItem
    {
    }

    ghost predicate Closed(p: Player, partner: Player?)
      reads p, if partner == null then {} else {partner}
    {
      Idle(p) && (partner != null ==> Idle(partner))
    }

    /** Whether the state of both sides lets a player put something up for the partner. */
    ghost predicate MayStart(p: Player, q: Player)
      reads p, q
    {
      (p.tradeState.None? || (p.tradeState.Acknowledge? && p.tradePartner == q)) &&
      (q.tradeState.None? || q.tradePartner == p)
    }

    /** An idle partner has been asked; a partner who asked first is as before. */
    ghost predicate Asked(q: Player, p: Player, was: (Player?, Item?, TradeState))
      reads q
    {
      StateOf(q) == if was.2.None? then (p, null, Acknowledge) else was
    }

    /** Puts an item up for a partner: an idle partner is asked, a partner who asked first is answered. */
    method InternalStartTrade(player: Player, partner: Player, item: Item) returns (ok: bool)
      requires Valid() && player in all && partner in all && player != partner
      requires item in items && item !in tradeItems
      modifies `tradeItems, player, partner, item`references
      ensures Valid()
      ensures ok == old(MayStart(player, partner))
      ensures ok ==> StateOf(player) == (partner, item, Initiated) && tradeItems == old(tradeItems)[item := player.id]
      ensures ok ==> Asked(partner, player, old(StateOf(partner)))
      ensures old(AllQuiet()) ==> AllQuiet()
      ensures !ok ==> tradeItems == old(tradeItems) && item.references == old(item.references)
      ensures !ok ==> StateOf(player) == old(StateOf(player)) && StateOf(partner) == old(StateOf(partner))
    {
      if player.tradeState != None && !(player.tradeState == Acknowledge && player.tradePartner == partner) {
        return false;
      } else if partner.tradeState != None && partner.tradePartner != player {
        return false;
      }
      ok := true;
      hide Ledger, Matching, Offers, AllQuiet;
      Commit(player, partner, item);
    }

    method Commit(player: Player, partner: Player, item: Item)
      requires Matching() && Offers() && Ledger() && player in all && partner in all
      requires player != partner && MayStart(player, partner) && item in items && item !in tradeItems
      modifies `tradeItems, player, partner, item`references
      ensures Matching() && Offers() && Ledger()
      ensures StateOf(player) == (partner, item, Initiated) && tradeItems == old(tradeItems)[item := player.id]
      ensures Asked(partner, player, old(StateOf(partner)))
      ensures old(AllQuiet()) ==> AllQuiet()
    {
      StarterFacts(player, partner);
      hide Ledger, Matching, MayStart, AllOwned, AllQuiet;
      PutUpAndEngage(player, partner, item);
    }

    method PutUpAndEngage(player: Player, partner: Player, item: Item)
      requires Matching() && AllOwned() && Ledger() && player in all && partner in all
      requires player != partner && MayStart(player, partner) && item in items && item !in tradeItems
      modifies `tradeItems, player, partner, item`references
      ensures Matching() && AllOwned() && Ledger()
      ensures StateOf(player) == (partner, item, Initiated) && tradeItems == old(tradeItems)[item := player.id]
      ensures Asked(partner, player, old(StateOf(partner)))
      ensures old(AllQuiet()) ==> AllQuiet()
    {
      StarterFacts(player, partner);
      hide Ledger, Matching, MayStart, AllQuiet, AllOwned;
      EngageIdle(player, partner, item);
      PutUp(player, item);
    }

    /** The states change; what is on the table stays with its owners. */
    method EngageIdle(player: Player, partner: Player, item: Item)
      requires Matching() && AllOwned() && player in all && partner in all && player != partner
      requires MayStart(player, partner) && player.tradeItem == null && player.id in players && players[player.id] == player
      modifies player, partner
      ensures Matching() && AllOwned() && Owned(item, player.id) && StateOf(player) == (partner, item, Initiated)
      ensures Asked(partner, player, old(StateOf(partner)))
      ensures old(AllQuiet()) ==> AllQuiet()
    {
      StarterFacts(player, partner);
      hide Matching, MayStart, AllQuiet;
      Engage(player, partner, item);
    }

    lemma StarterFacts(player: Player, partner: Player)
      requires Matching() && player in all && partner in all && MayStart(player, partner)
      ensures player.tradeItem == null && player.id in players && players[player.id] == player
      ensures partner.tradeState.None? ==> partner.tradeItem == null
      ensures !partner.tradeState.None? ==> !partner.tradeState.Transfer?
    {
    }

    method PutUp(player: Player, item: Item)
      requires Ledger() && AllOwned() && Owned(item, player.id) && item in items && item !in tradeItems
      modifies `tradeItems, item`references
      ensures Ledger() && AllOwned() && tradeItems == old(tradeItems)[item := player.id]
    {
      hide Owned;
      item.references := item.references + 1;
      tradeItems := tradeItems[item := player.id];
    }

    method Engage(player: Player, partner: Player, item: Item)
      requires Matching() && player in all && partner in all && player != partner
      requires MayStart(player, partner)
      modifies player, partner
      ensures Matching() && StateOf(player) == (partner, item, Initiated)
      ensures Asked(partner, player, old(StateOf(partner)))
      ensures old(AllQuiet()) ==> AllQuiet()
    {
      player.tradePartner := partner;
      player.tradeItem := item;
      player.tradeState := Initiated;
      if partner.tradeState == None {
        partner.tradeState := Acknowledge;
        partner.tradePartner := player;
      }
    }

    /** Whether an item may be put up: neither it nor anything inside it nor anything around it is on offer. */
    method CheckOffer(item: Item, holds: Nesting) returns (ok: bool)
      ensures ok <==> item !in tradeItems && forall x <- tradeItems :: !holds(item, x) && !holds(x, item)
    {
      var todo := tradeItems.Keys;
      while todo != {}
        invariant todo <= tradeItems.Keys
        invariant forall x <- tradeItems | x !in todo :: x != item && !holds(item, x) && !holds(x, item)
        decreases |todo|
      {
        var x :| x in todo;
        if item == x || holds(item, x) || holds(x, item) {
          return false;
        }
        todo := todo - {x};
      }
      return true;
    }

    /** Whether a request is sound, whatever state the two players are in. `allowed` stands for reach, sight, rights and scripts. */
    ghost predicate Sound(player: Player, partner: Player, item: Item, holding: nat, allowed: bool, holds: Nesting)
      reads `tradeItems
    {
      player != partner && allowed && item !in tradeItems &&
      (forall x <- tradeItems :: !holds(item, x) && !holds(x, item)) && holding < 100
    }

    method CheckRequest(player: Player, partner: Player, item: Item, holding: nat, allowed: bool, holds: Nesting)
      returns (ok: bool)
      ensures ok == Sound(player, partner, item, holding, allowed, holds)
    {
      if player == partner || !allowed { return false; }
      var free := CheckOffer(item, holds);
      return free && holding + 1 <= 100;
    }

    /** A player asks to trade an item with another one. */
    method RequestTrade(player: Player, partner: Player, item: Item, holding: nat, allowed: bool, holds: Nesting)
      returns (ok: bool)
      requires AtRest() && item in items && player in all && partner in all
      modifies `tradeItems, player, partner, item`references
      ensures AtRest()
      ensures ok <==> old(Sound(player, partner, item, holding, allowed, holds) && MayStart(player, partner))
      ensures tradeItems == if ok then old(tradeItems)[item := player.id] else old(tradeItems)
      ensures if ok then StateOf(player) == (partner, item, Initiated) && Asked(partner, player, old(StateOf(partner)))
              else StateOf(player) == old(StateOf(player)) && StateOf(partner) == old(StateOf(partner))
      ensures old(Separate(holds)) ==> Separate(holds)
    {
      var sound := CheckRequest(player, partner, item, holding, allowed, holds);
      if !sound { return false; }
      hide Ledger, Matching, Offers, AllQuiet, MayStart, StateOf, Asked;
      ok := InternalStartTrade(player, partner, item);
    }

    // -------------------------------------------------------------------
    // Accepting
    // -------------------------------------------------------------------

    /** Nobody else offers what one of the two sides offers. */
    lemma OthersOfferOthers(p: Player)
      requires Matching() && AllListed() && p in all && !Transferring(p)
      ensures forall q <- all | q != p && q != p.tradePartner && q.tradeItem != null && !q.tradeState.Transfer? ::
        q.tradeItem != p.tradeItem && (p.tradePartner != null ==> q.tradeItem != p.tradePartner.tradeItem)
      ensures p.tradePartner != null ==> p.tradePartner in all
    {
    }

    /** Both sides have agreed: their items leave the table and are about to change hands. */
    method BeginTransfer(player: Player)
      requires Matching() && Offers() && Ledger() && player in all && player.tradePartner != null && !Transferring(player)
      modifies `tradeItems, `toRelease, player`tradeState, player.tradePartner`tradeState
      ensures Matching() && Offers() && Ledger() && Transferring(player)
      ensures tradeItems == old(TableWithout(player))
    {
      OthersOfferOthers(player);
      DifferentOffers(player);
      hide Ledger, Matching, AllOwned;
      TakeDown(player);
    }

    method TakeDown(player: Player)
      requires Matching() && AllOwned() && Ledger() && player in all && player.tradePartner != null && !Transferring(player)
      requires player.tradeItem != null ==> player.tradePartner.tradeItem != player.tradeItem
      modifies `tradeItems, `toRelease, player`tradeState, player.tradePartner`tradeState
      ensures Matching() && AllOwned() && Ledger()
      ensures player.tradeState.Transfer? && player.tradePartner.tradeState.Transfer?
      ensures tradeItems == old(TableWithout(player))
    {
      hide Ledger, Matching;
      WithdrawBoth(player);
      SetTransfer(player);
    }

    method SetTransfer(player: Player)
      requires Matching() && player in all && player.tradePartner != null
      modifies player`tradeState, player.tradePartner`tradeState
      ensures Matching() && player.tradeState == Transfer && player.tradePartner.tradeState == Transfer
    {
      var partner := player.tradePartner;
      player.tradeState := Transfer;
      partner.tradeState := Transfer;
    }

    /**
     * Hands the items over. Moving them may make somebody want to close the trade, which is refused. `moved` is what
     * the checks and moves of the items come to; an item that is not there cannot be moved.
     */
    method CarryOut(player: Player, partner: Player, moved: bool, disturbed: bool) returns (success: bool)
      requires Valid() && player in all && partner == player.tradePartner && !Transferring(player)
      modifies `tradeItems, `toRelease, all
      ensures Valid() && Closed(player, partner) && tradeItems == old(TableWithout(player))
      ensures success <==> moved && old(player.tradeItem) != null && old(partner.tradeItem) != null
      ensures forall q <- all | q != player && q != partner :: StateOf(q) == old(StateOf(q))
    {
      PartnerIsKnown(player);
      hide Ledger, Matching, Offers, StateOf, Closed, TableWithout, BothOnTable;
      success := player.tradeItem != null && partner.tradeItem != null && moved;
      Freeze(player, partner, disturbed);
      EndTransfer(player, partner);
    }

    method Freeze(player: Player, partner: Player, disturbed: bool)
      requires Valid() && player in all && partner == player.tradePartner && !Transferring(player)
      modifies `tradeItems, `toRelease, all
      ensures Valid() && Transferring(player) && player.tradePartner == partner
      ensures tradeItems == old(TableWithout(player))
      ensures forall q <- all | q != player && q != partner :: StateOf(q) == old(StateOf(q))
    {
      PartnerIsKnown(player);
      hide Ledger, Matching, Offers, TableWithout, BothOnTable;
      BeginTransfer(player);
      if disturbed {
        Disturb(player, partner);
      }
    }

    /** A wish to close the trade in the middle of the transfer changes nothing. */
    method Disturb(player: Player, partner: Player)
      requires Valid() && player in all && partner == player.tradePartner && Transferring(player)
      modifies `tradeItems, `toRelease, all
      ensures Valid() && Transferring(player) && player.tradePartner == partner && tradeItems == old(tradeItems)
      ensures forall q <- all :: StateOf(q) == old(StateOf(q))
    {
      PartnerIsKnown(player);
      BothTransfer(player);
      hide Ledger, Matching, Offers;
      InternalCloseTrade(partner);
      assert StateOf(player) == old(StateOf(player)) && StateOf(partner) == old(StateOf(partner));
    }

    /** The items have changed hands, or have not; either way the two are idle again. */
    method EndTransfer(player: Player, partner: Player)
      requires Matching() && Offers() && player in all && partner == player.tradePartner && Transferring(player)
      modifies all
      ensures Matching() && Offers() && Closed(player, partner)
      ensures forall q <- all | q != player && q != partner :: StateOf(q) == old(StateOf(q))
    {
      BothTransfer(player);
      hide Matching;
      Part(player);
    }

    lemma BothTransfer(p: Player)
      requires Matching() && p in all && p.tradePartner != null && Transferring(p)
      ensures p.tradeState.Transfer? && p.tradePartner.tradeState.Transfer?
    {
    }

    lemma PartnerIsKnown(p: Player)
      requires Matching() && p in all
      ensures p.tradePartner != null ==> p.tradePartner in all && p.tradePartner.tradePartner == p && p.tradePartner != p
      ensures forall q <- all | q != p.tradePartner :: q.tradePartner != p
    {
    }

    /** Nobody else's partner is one of two players who are done with each other. */
    lemma OthersElsewhere(p: Player, q: Player)
      requires Valid() && p in all && q in all && Closed(p, q)
      ensures forall r <- all | r != p && r != q ::
        r.tradePartner != p && r.tradePartner != q && (r.tradePartner != null ==> r.tradePartner in all)
    {
    }

    /** A player agrees. */
    method Agree(player: Player)
      requires Matching() && Offers() && player in all && player.tradePartner != null && !Transferring(player)
      modifies player`tradeState
      ensures Matching() && Offers() && player.tradeState == Accept
    {
      player.tradeState := Accept;
    }

    /** Both sides have agreed: the trade is carried out, or closed when they are out of sight or a script objects. */
    method Conclude(player: Player, partner: Player, allowed: bool, moved: bool, disturbed: bool) returns (answer: Answer)
      requires Valid() && player in all && partner == player.tradePartner && !Transferring(player)
      requires forall q <- all | q != player && q != partner :: Quiet(q)
      modifies `tradeItems, `toRelease, all
      ensures AtRest() && Closed(player, partner) && tradeItems == old(TableWithout(player))
      ensures answer == if !allowed then Cancelled
        else Completed(moved && old(player.tradeItem) != null && old(partner.tradeItem) != null)
      ensures forall q <- all | q != player && q != partner :: StateOf(q) == old(StateOf(q))
    {
      PartnerIsKnown(player);
      hide Ledger, Matching, Offers, TableWithout, BothOnTable;
      if allowed {
        var success := CarryOut(player, partner, moved, disturbed);
        answer := Completed(success);
      } else {
        InternalCloseTrade(player);
        answer := Cancelled;
      }
      OthersElsewhere(player, partner);
      assert forall q <- all | q != player && q != partner :: StateOf(q) == old(StateOf(q)) && old(Quiet(q));
    }

    /** A player accepts the trade as it stands. */
    method AcceptTrade(player: Player, allowed: bool, moved: bool, disturbed: bool) returns (answer: Answer)
      requires AtRest() && player in all
      modifies `tradeItems, `toRelease, all
      ensures AtRest()
      ensures answer.Ignored? <==> !old(player.tradeState.Acknowledge? || player.tradeState.Initiated?)
      ensures answer.Waiting? ==> StateOf(player) == (old(player.tradePartner), old(player.tradeItem), Accept)
      ensures !answer.Ignored? ==> old(player.tradePartner) != null
      ensures !answer.Ignored? ==> (answer.Waiting? <==> !old(player.tradePartner.tradeState).Accept?)
      ensures answer.Ignored? || answer.Waiting? ==>
        tradeItems == old(tradeItems) && forall q <- all | q != player :: StateOf(q) == old(StateOf(q))
      ensures answer.Cancelled? || answer.Completed? ==>
        Closed(player, old(player.tradePartner)) && tradeItems == old(TableWithout(player))
      ensures answer.Cancelled? ==> !allowed
      ensures answer.Completed? ==> allowed
      ensures answer.Completed? ==>
        (answer.success <==> moved && old(player.tradeItem) != null && old(player.tradePartner.tradeItem) != null)
      ensures forall q <- all | q != player && q != old(player.tradePartner) :: StateOf(q) == old(StateOf(q))
    {
      if player.tradeState != Acknowledge && player.tradeState != Initiated {
        return Ignored;
      }
      PartnerIsKnown(player);
      var partner := player.tradePartner;
      hide Ledger, Matching, Offers;
      Agree(player);
      assert forall q <- all | q != player && q != partner :: StateOf(q) == old(StateOf(q)) && old(Quiet(q));
      assert forall q <- all | q != player && q != partner :: q.tradePartner != player;
      assert forall q <- all | q != player && q != partner :: Quiet(q);
      if partner.tradeState != Accept {
        return Waiting;
      }
      answer := Conclude(player, partner, allowed, moved, disturbed);
    }

    /** A player who has put something up, or has agreed, puts up nothing else until the trade is over. */
    lemma OfferIsFinal(p: Player, x: Player)
      requires Matching() && p in all && (p.tradeItem != null || p.tradeState.Accept?)
      ensures !MayStart(p, x)
    {
    }

    /** What a player has agreed to may still change exactly while the partner has neither put anything up nor agreed. */
    lemma AgreedToStays(p: Player, q: Player)
      requires Matching() && p in all && p.tradeState.Accept? && p.tradePartner == q
      ensures MayStart(q, p) <==> q.tradeState.Acknowledge?
      ensures q.tradeState.Acknowledge? ==> q.tradeItem == null
    {
    }

    /** Whoever agrees before seeing a counter-offer has agreed to any: the partner puts something up, agrees, and the
        trade is carried out. */
    method AgreeUnseen(p: Player, q: Player, item: Item, moved: bool, disturbed: bool) returns (answer: Answer)
      requires AtRest() && p in all && p.tradeState.Initiated? && p.tradePartner == q && q.tradeState.Acknowledge?
      requires item in items && item !in tradeItems
      modifies `tradeItems, `toRelease, all, item`references
      ensures AtRest() && answer == Completed(moved)
    {
      PartnerIsKnown(p);
      var first := AcceptTrade(p, true, moved, disturbed);
      assert first == Waiting;
      AgreedToStays(p, q);
      var put := InternalStartTrade(q, p, item);
      answer := AcceptTrade(q, true, moved, disturbed);
    }

    /** A player calls a trade off; with nothing going on, nothing happens. */
    method CloseTrade(player: Player)
      requires AtRest() && player in all
      modifies `tradeItems, `toRelease, all
      ensures AtRest() && Closed(player, old(player.tradePartner)) && tradeItems == old(TableWithout(player))
      ensures forall q <- all | q != player && q != old(player.tradePartner) :: StateOf(q) == old(StateOf(q))
    {
      PartnerIsKnown(player);
      NotTransferring(player);
      var partner := player.tradePartner;
      hide Valid, TableWithout, BothOnTable;
      InternalCloseTrade(player);
      OthersElsewhere(player, if partner == null then player else partner);
      assert AllQuiet() by {
        assert forall q <- all | q != player && q != partner :: StateOf(q) == old(StateOf(q)) && old(Quiet(q));
      }
    }

    lemma NotTransferring(p: Player)
      requires Matching() && AllQuiet() && p in all
      ensures !Transferring(p)
    {
    }

    /** A player comes into the game. */
    method AddPlayer(p: Player)
      requires AtRest() && p !in all && p.id !in players && Idle(p)
      modifies `players, `all
      ensures AtRest() && all == old(all) + {p} && players == old(players)[p.id := p]
    {
      PartnersAreKnown();
      players := players[p.id := p];
      all := all + {p};
    }

    /** A player leaves the game; a trade going on is called off first. */
    method RemovePlayer(p: Player)
      requires AtRest() && p in all
      modifies `tradeItems, `toRelease, `players, `all, all
      ensures AtRest() && all == old(all) - {p} && tradeItems == old(TableWithout(p))
      ensures forall x <- tradeItems :: tradeItems[x] != p.id
    {
      CloseTrade(p);
      PartnersAreKnown();
      IdleIsAlone(p);
      Forget(p);
    }

    lemma PartnersAreKnown()
      requires Matching()
      ensures forall q <- all | q.tradePartner != null :: q.tradePartner in all
    {
    }

    /** Nobody deals with an idle player, and nothing of such a player's is on the table. */
    lemma IdleIsAlone(p: Player)
      requires Matching() && Offers() && p in all && Idle(p)
      ensures p.id in players && players[p.id] == p
      ensures forall q <- all :: q.tradePartner != p && (q != p ==> q.id != p.id)
      ensures forall x <- tradeItems :: tradeItems[x] != p.id
    {
    }

    method Forget(p: Player)
      requires AtRest() && p in all && p.id in players && players[p.id] == p
      requires forall q <- all :: q.tradePartner != p && (q != p ==> q.id != p.id)
      requires forall x <- tradeItems :: tradeItems[x] != p.id
      modifies `players, `all
      ensures AtRest() && all == old(all) - {p}
    {
      hide Ledger;
      players := map id | id in players && id != p.id :: players[id];
      all := all - {p};
    }

    /** Between two requests the table of traded items is exactly who offers what. */
    lemma TableIsOffers(x: Item, id: nat)
      requires AtRest()
      ensures (x in tradeItems && tradeItems[x] == id) <==> (id in players && players[id].tradeItem == x)
    {
      hide Ledger;
    }

    /** No item is offered by two players, and partners never offer the same one. */
    lemma OneOwner(p: Player, q: Player)
      requires AtRest() && p in all && q in all && p.tradeItem != null && p.tradeItem == q.tradeItem
      ensures p == q
    {
      hide Ledger;
      TableIsOffers(p.tradeItem, p.id);
      TableIsOffers(q.tradeItem, q.id);
    }
  }
}
