/** `Starship` and its `fullyName`: the optional prefix and the name, joined by one space. */
module Starship {

  import opened Wrappers

  datatype Starship = Starship(name: string, prefix: Option<string>)

  /** `fullyName`: `prefix + " " + name` when there is a prefix, the bare name otherwise. */
  function FullyName(ship: Starship): (r: string)
    ensures |ship.name| <= |r| && r[|r| - |ship.name|..] == ship.name
    ensures ship.prefix.None? <==> r == ship.name
    ensures ship.prefix.Some? ==>
      var p := ship.prefix.value;
      |r| == |p| + 1 + |ship.name| && r[..|p|] == p && r[|p|] == ' '
  {
    (if ship.prefix.Some? then ship.prefix.value + " " else "") + ship.name
  }

  /** Splits a full name at its first space into a prefix and a name. */
  function SplitFullName(s: string): (ship: Starship)
    decreases |s|
  {
    if |s| == 0 then Starship("", None)
    else if s[0] == ' ' then Starship(s[1..], Some(""))
    else
      var rest := SplitFullName(s[1..]);
      match rest.prefix
      case None => Starship(s, None)
      case Some(p) => Starship(rest.name, Some([s[0]] + p))
  }

  /**
   A prefix without a space can be recovered from the full name, and a full
   name without a space was built from no prefix at all.
   */
  lemma {:induction false} FullyNameRoundTrip(ship: Starship)
    requires ship.prefix.Some? ==> ' ' !in ship.prefix.value
    requires ship.prefix.None? ==> ' ' !in ship.name
    ensures SplitFullName(FullyName(ship)) == ship
  {
    match ship.prefix
    case None => SplitWithoutSpace(ship.name);
    case Some(p) => SplitAfterPrefix(p, ship.name);
  }

  lemma {:induction false} SplitWithoutSpace(s: string)
    requires ' ' !in s
    ensures SplitFullName(s) == Starship(s, None)
    decreases |s|
  {
    if |s| > 0 {
      assert s[0] != ' ';
      SplitWithoutSpace(s[1..]);
    }
  }

  lemma {:induction false} SplitAfterPrefix(p: string, name: string)
    requires ' ' !in p
    ensures SplitFullName(p + " " + name) == Starship(name, Some(p))
    decreases |p|
  {
    var s := p + " " + name;
    if |p| == 0 {
      assert s == " " + name;
      assert s[1..] == name;
    } else {
      assert s[0] == p[0] != ' ';
      assert s[1..] == p[1..] + " " + name;
      SplitAfterPrefix(p[1..], name);
      assert [p[0]] + p[1..] == p;
    }
  }
}
