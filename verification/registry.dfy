/**
 * The bot registry (NextBots.cs): the list of active bot controllers, its
 * registration, the purge of deleted bots and the order of a server tick.
 * A controller is an opaque id; whether it is still valid and whether this
 * is the server are inputs.
 */
module Registry {

  type Bot = nat

  /** `Register`: off the server, or for a bot already listed, nothing; otherwise the bot is appended. */
  function Register(bots: seq<Bot>, bot: Bot, isServer: bool): (r: seq<Bot>)
    ensures !isServer ==> r == bots
    ensures isServer && bot in bots ==> r == bots
    ensures isServer && bot !in bots ==> r == bots + [bot]
    ensures isServer ==> IsRegistered(r, bot)
  {
    if !isServer then bots
    else if IsRegistered(bots, bot) then bots
    else bots + [bot]
  }

  /** `IsRegistered`: the controller is in the list. */
  predicate IsRegistered(bots: seq<Bot>, bot: Bot) {
    bot in bots
  }

  predicate NoDuplicates(bots: seq<Bot>) {
    forall i, j :: 0 <= i < j < |bots| ==> bots[i] != bots[j]
  }

  /** Registering never creates a duplicate entry. */
  lemma RegisterKeepsNoDuplicates(bots: seq<Bot>, bot: Bot, isServer: bool)
    requires NoDuplicates(bots)
    ensures NoDuplicates(Register(bots, bot, isServer))
  {
    var r := Register(bots, bot, isServer);
    if isServer && bot !in bots {
      forall i, j | 0 <= i < j < |r| ensures r[i] != r[j] {
        if j == |bots| {
          assert r[i] == bots[i];
        }
      }
    }
  }

  /** The valid bots, in list order. */
  function Valid(bots: seq<Bot>, valid: Bot -> bool): (r: seq<Bot>)
    ensures |r| <= |bots|
    decreases |bots|
  {
    if |bots| == 0 then []
    else Valid(bots[..|bots| - 1], valid) + (if valid(bots[|bots| - 1]) then [bots[|bots| - 1]] else [])
  }

  /** A bot survives the filter exactly when it was listed and is valid. */
  lemma {:induction false} ValidMembers(bots: seq<Bot>, valid: Bot -> bool, bot: Bot)
    ensures bot in Valid(bots, valid) <==> bot in bots && valid(bot)
    decreases |bots|
  {
    if |bots| > 0 {
      var init := bots[..|bots| - 1];
      ValidMembers(init, valid, bot);
      assert bots == init + [bots[|bots| - 1]];
    }
  }

  lemma {:induction false} ValidAppend(a: seq<Bot>, b: seq<Bot>, valid: Bot -> bool)
    ensures Valid(a + b, valid) == Valid(a, valid) + Valid(b, valid)
    decreases |b|
  {
    if |b| == 0 {
      assert a + b == a;
    } else {
      var init := b[..|b| - 1];
      assert (a + b)[..|a + b| - 1] == a + init;
      ValidAppend(a, init, valid);
    }
  }

  /** `List.Remove`: the first occurrence goes. */
  function RemoveFirst(s: seq<Bot>, x: Bot): (r: seq<Bot>)
    ensures x in s ==> |r| == |s| - 1
    ensures x !in s ==> r == s
    decreases |s|
  {
    if |s| == 0 then []
    else if s[0] == x then s[1..]
    else [s[0]] + RemoveFirst(s[1..], x)
  }

  /** Removing an invalid bot does not change the valid ones. */
  lemma {:induction false} RemoveInvalidKeepsValid(s: seq<Bot>, x: Bot, valid: Bot -> bool)
    requires !valid(x)
    ensures Valid(RemoveFirst(s, x), valid) == Valid(s, valid)
    decreases |s|
  {
    if |s| > 0 {
      assert s == [s[0]] + s[1..];
      ValidAppend([s[0]], s[1..], valid);
      if s[0] != x {
        RemoveInvalidKeepsValid(s[1..], x, valid);
        ValidAppend([s[0]], RemoveFirst(s[1..], x), valid);
      } else {
        assert Valid([s[0]], valid) == [];
      }
    }
  }

  /** Removing an element found within a prefix only touches that prefix. */
  lemma {:induction false} RemoveFirstInPrefix(p: seq<Bot>, q: seq<Bot>, x: Bot)
    requires x in p
    ensures RemoveFirst(p + q, x) == RemoveFirst(p, x) + q
    decreases |p|
  {
    if p[0] != x {
      assert (p + q)[1..] == p[1..] + q;
      RemoveFirstInPrefix(p[1..], q, x);
    } else {
      assert (p + q)[1..] == p[1..] + q;
    }
  }

  /**
   * `PurgeDeletedBots`: walking the list from the back, each invalid bot is
   * removed (its first occurrence, as `List.Remove` does).  What remains is
   * exactly the valid bots in their original order, duplicates or not.
   */
  method PurgeDeletedBots(bots: seq<Bot>, valid: Bot -> bool) returns (r: seq<Bot>)
    ensures r == Valid(bots, valid)
  {
    r := bots;
    var i := |bots| - 1;
    assert r[..i + 1] == bots && r[i + 1..] == [];
    while i >= 0
      invariant -1 <= i < |r|
      invariant Valid(r[..i + 1], valid) + r[i + 1..] == Valid(bots, valid)
      invariant forall k :: i < k < |r| ==> valid(r[k])
      decreases i
    {
      var bot := r[i];
      var p, q := r[..i + 1], r[i + 1..];
      assert r == p + q;
      assert p == p[..i] + [bot];
      if !valid(bot) {
        RemoveFirstInPrefix(p, q, bot);
        RemoveInvalidKeepsValid(p, bot, valid);
        ValidAppend(p[..i], [bot], valid);
        r := RemoveFirst(p, bot) + q;
        assert r[..i] == RemoveFirst(p, bot) && r[i..] == q;
      } else {
        assert Valid(p, valid) == Valid(p[..i], valid) + [bot];
        assert r[..i] == p[..i] && r[i..] == [bot] + q;
      }
      i := i - 1;
    }
    assert r[..0] == [];
  }

  /** What a tick asks of one bot. */
  datatype Call = Upkeep(bot: Bot) | Update(bot: Bot)

  /**
   * `Tick`: the purge first, then `Upkeep` and `Update` on each remaining bot
   * in list order.  Returns the new list and the calls made.
   */
  method Tick(bots: seq<Bot>, valid: Bot -> bool) returns (r: seq<Bot>, calls: seq<Call>)
    ensures r == Valid(bots, valid)
    ensures |calls| == 2 * |r|
    ensures forall i :: 0 <= i < |r| ==> calls[2 * i] == Upkeep(r[i]) && calls[2 * i + 1] == Update(r[i])
  {
    r := PurgeDeletedBots(bots, valid);
    calls := [];
    var i := 0;
    while i < |r|
      invariant 0 <= i <= |r|
      invariant |calls| == 2 * i
      invariant forall k :: 0 <= k < i ==> calls[2 * k] == Upkeep(r[k]) && calls[2 * k + 1] == Update(r[k])
    {
      calls := calls + [Upkeep(r[i]), Update(r[i])];
      i := i + 1;
    }
  }
}
