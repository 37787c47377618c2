/** The `Game` class of src/game.py: the dungeon master and the table of
    characters, one per player. */
module Game {
  import opened Common
  import opened Strings
  import opened Tables
  import Character

  /** The message of the `GameException` for a player who has a character. */
  function AlreadyHas(player: string, charName: string): string
  {
    "Player `" + player + "` has already the character `" + charName + "`"
  }

  /** The `key:value` pairs `get_characters` prints: player and character name. */
  function Roster(cs: seq<(string, Character.Character)>): (t: seq<(string, string)>)
    ensures |t| == |cs| && forall i :: 0 <= i < |cs| ==> t[i] == (cs[i].0, cs[i].1.ToString())
  {
    seq(|cs|, i requires 0 <= i < |cs| => (cs[i].0, cs[i].1.ToString()))
  }

  class Game {
    var dm: Option<string>
    var characters: seq<(string, Character.Character)>

    ghost predicate Valid()
      reads this
    {
      DistinctKeys(characters)
    }

    constructor()
      ensures dm == None && characters == [] && Valid()
    {
      dm := None;
      characters := [];
    }

    /** `get_characters()`: one `player:character` line per entry, in the
        order the players joined; nothing for an empty table. */
    function GetCharacters(): (s: string)
      reads this
      ensures characters == [] ==> s == ""
      ensures characters != [] && OneLine(Roster(characters)) ==> SplitOn(s, '\n') == Lines(Roster(characters))
    {
      ListingLines(Roster(characters));
      Listing(Roster(characters))
    }

    /** `create_character(player, char_name)`: refuses a player who already
        has a character and leaves the table as it was; otherwise gives the
        player a new character and changes no other entry. */
    method CreateCharacter(player: string, charName: string) returns (err: Option<string>)
      requires Valid()
      modifies this
      ensures Valid() && dm == old(dm)
      ensures player in Keys(old(characters)) ==>
        && err == Some(AlreadyHas(player, Lookup(old(characters), player).value.name))
        && characters == old(characters)
      ensures player !in Keys(old(characters)) ==>
        && err == None
        && |characters| == |old(characters)| + 1
        && characters[..|old(characters)|] == old(characters)
        && characters[|old(characters)|].0 == player
        && fresh(characters[|old(characters)|].1)
        && characters[|old(characters)|].1.name == charName
        && characters[|old(characters)|].1.stats == []
      ensures forall k :: k != player ==> Lookup(characters, k) == Lookup(old(characters), k)
    {
      var found := Lookup(characters, player);
      if found.Some? {
        return Some(AlreadyHas(player, found.value.ToString()));
      }
      var c := new Character.Character(charName);
      assert player !in Keys(characters);
      PutFresh(characters, player, c);
      characters := Put(characters, player, c);
      err := None;
    }
  }

  /** Putting a new key into a dict appends it, keeps the dict a dict and
      changes no other key's value. */
  lemma PutFresh<V>(t: seq<(string, V)>, k: string, v: V)
    requires DistinctKeys(t) && k !in Keys(t)
    ensures Put(t, k, v) == t + [(k, v)] && DistinctKeys(Put(t, k, v))
    ensures forall j :: j != k ==> Lookup(Put(t, k, v), j) == Lookup(t, j)
  {
    forall j | j != k
      ensures Lookup(Put(t, k, v), j) == Lookup(t, j)
    {
      PutLookup(t, k, v, j);
    }
    PutDistinct(t, k, v);
    PutNew(t, k, v);
  }

  /** Putting a new key appends it. */
  lemma {:induction false} PutNew<V>(t: seq<(string, V)>, k: string, v: V)
    requires k !in Keys(t)
    ensures Put(t, k, v) == t + [(k, v)]
  {
    if t != [] {
      KeysCons(t);
      PutNew(t[1..], k, v);
      assert t == [t[0]] + t[1..];
    }
  }
}
