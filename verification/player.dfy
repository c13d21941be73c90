/** A player: a name, a chip colour and a win counter (lib/player.rb). */
module Player {
  import opened Wrappers

  datatype Player = Player(name: string, color: string, wins: int)

  /** `Player.new(name, color)`: the win counter defaults to zero. */
  function NewPlayer(name: string, color: string): (p: Player)
    ensures p.name == name && p.color == color && p.wins == 0
  {
    Player(name, color, 0)
  }

  /** `increment_wins`: one more win, nothing else changes. */
  function IncrementWins(p: Player): (q: Player)
    ensures q.wins == p.wins + 1
    ensures q.name == p.name && q.color == p.color
  {
    p.(wins := p.wins + 1)
  }

  /** `increment_wins` called `n` times in a row. */
  function IncrementTimes(p: Player, n: nat): Player
  {
    if n == 0 then p else IncrementWins(IncrementTimes(p, n - 1))
  }

  /** Calling `increment_wins` n times adds exactly n and keeps the identity. */
  lemma {:induction false} IncrementTimesAddsN(p: Player, n: nat)
    ensures IncrementTimes(p, n).wins == p.wins + n
    ensures IncrementTimes(p, n).name == p.name
    ensures IncrementTimes(p, n).color == p.color
  {
    if n > 0 {
      IncrementTimesAddsN(p, n - 1);
    }
  }

  /** From a fresh player, n increments give exactly n wins; the counter
      never goes below where it started. */
  lemma FreshPlayerWinsCountCalls(name: string, color: string, n: nat)
    ensures IncrementTimes(NewPlayer(name, color), n).wins == n
    ensures forall m: nat :: m <= n ==> IncrementTimes(NewPlayer(name, color), m).wins <= IncrementTimes(NewPlayer(name, color), n).wins
  {
    IncrementTimesAddsN(NewPlayer(name, color), n);
    forall m: nat | m <= n
      ensures IncrementTimes(NewPlayer(name, color), m).wins <= IncrementTimes(NewPlayer(name, color), n).wins
    {
      IncrementTimesAddsN(NewPlayer(name, color), m);
    }
  }

  /** A JSON-like value: the three shapes a serialized player field can take. */
  datatype Value = Str(s: string) | Int(i: int) | Null

  /** A decoded JSON object: string keys, as `JSON.parse` produces them. */
  type Record = map<string, Value>

  datatype DeserializeError = MissingField(key: string) | WrongType(key: string)

  /** `serialize`, after JSON encoding has turned its symbol keys into strings. */
  function Serialize(p: Player): (data: Record)
    ensures data.Keys == {"name", "color", "wins"}
  {
    map["name" := Str(p.name), "color" := Str(p.color), "wins" := Int(p.wins)]
  }

  /** True when `data` holds field `key` as a string. */
  predicate HasString(data: Record, key: string)
  {
    key in data && data[key].Str?
  }

  /** `Player.deserialize`: reads the `name`, `color` and `wins` fields. A field
      that is absent or of the wrong shape is reported as an error instead of
      being passed on as `nil`. */
  function Deserialize(data: Record): (r: Result<Player, DeserializeError>)
    ensures r.Success? <==> HasString(data, "name") && HasString(data, "color") && "wins" in data && data["wins"].Int?
    ensures r.Success? ==>
      && data["name"] == Str(r.value.name)
      && data["color"] == Str(r.value.color)
      && data["wins"] == Int(r.value.wins)
  {
    if "name" !in data then Failure(MissingField("name"))
    else if !data["name"].Str? then Failure(WrongType("name"))
    else if "color" !in data then Failure(MissingField("color"))
    else if !data["color"].Str? then Failure(WrongType("color"))
    else if "wins" !in data then Failure(MissingField("wins"))
    else if !data["wins"].Int? then Failure(WrongType("wins"))
    else Success(Player(data["name"].s, data["color"].s, data["wins"].i))
  }

  /** Deserializing a serialized player gives back the same name, colour and wins. */
  lemma SerializeRoundTrip(p: Player)
    ensures Deserialize(Serialize(p)) == Success(p)
  {
  }

  /** Conversely, a well-formed three-field record survives deserialize then serialize. */
  lemma DeserializeRoundTrip(data: Record)
    requires data.Keys == {"name", "color", "wins"}
    requires Deserialize(data).Success?
    ensures Serialize(Deserialize(data).value) == data
  {
    var p := Deserialize(data).value;
    assert Serialize(p).Keys == data.Keys;
  }

  /** A record without a `wins` field is not turned into a player with zero wins. */
  lemma MissingWinsIsRejected(name: string, color: string)
    ensures Deserialize(map["name" := Str(name), "color" := Str(color)]) == Failure(MissingField("wins"))
  {
  }
}
