/** `OnOffSwith`, the two-state enumeration whose mutating `toggle()` flips it. */
module OnOffSwitch {

  datatype OnOffSwitch = Off | On

  /** `toggle()`: `Off` becomes `On`, anything else becomes `Off`. */
  function Toggle(s: OnOffSwitch): (r: OnOffSwitch)
    ensures r != s
  {
    match s
    case Off => On
    case _ => Off
  }

  /** The switch after `n` toggles. */
  function ToggleTimes(s: OnOffSwitch, n: nat): OnOffSwitch
    decreases n
  {
    if n == 0 then s else ToggleTimes(Toggle(s), n - 1)
  }

  /** Toggling twice restores the switch. */
  lemma ToggleTwice(s: OnOffSwitch)
    ensures Toggle(Toggle(s)) == s
  {
  }

  /** After `n` toggles the switch is back where it started exactly when `n` is even. */
  lemma {:induction false} ToggleTimesParity(s: OnOffSwitch, n: nat)
    ensures ToggleTimes(s, n) == s <==> n % 2 == 0
    ensures ToggleTimes(s, n) == (if n % 2 == 0 then s else Toggle(s))
    decreases n
  {
    if n > 0 {
      ToggleTimesParity(Toggle(s), n - 1);
      ToggleTwice(s);
    }
  }
}
