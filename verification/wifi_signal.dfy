/** The signal-strength labels of a Wi-Fi network card: a text and a colour
    class, both chosen by the same three thresholds. */
module WifiSignal {

  /** `getSignalStrengthText`. */
  function StrengthText(strength: real): (r: string)
    ensures r == "Excellent" <==> strength >= 75.0
    ensures r == "Good" <==> 50.0 <= strength < 75.0
    ensures r == "Fair" <==> 25.0 <= strength < 50.0
    ensures r == "Weak" <==> strength < 25.0
  {
    if strength >= 75.0 then "Excellent"
    else if strength >= 50.0 then "Good"
    else if strength >= 25.0 then "Fair"
    else "Weak"
  }

  /** `getSignalStrengthColor`. */
  function StrengthColor(strength: real): (r: string)
    ensures r == "text-green-500" <==> strength >= 75.0
    ensures r == "text-yellow-500" <==> 50.0 <= strength < 75.0
    ensures r == "text-orange-500" <==> 25.0 <= strength < 50.0
    ensures r == "text-red-500" <==> strength < 25.0
  {
    if strength >= 75.0 then "text-green-500"
    else if strength >= 50.0 then "text-yellow-500"
    else if strength >= 25.0 then "text-orange-500"
    else "text-red-500"
  }

  /** The four bands, weakest first. */
  datatype Band = Weak | Fair | Good | Excellent

  function Rank(b: Band): nat {
    match b
    case Weak => 0
    case Fair => 1
    case Good => 2
    case Excellent => 3
  }

  /** The band a strength falls in, counted by how many thresholds it
      reaches. */
  function BandOf(strength: real): (b: Band)
    ensures Rank(b) == (if strength >= 25.0 then 1 else 0) + (if strength >= 50.0 then 1 else 0)
      + (if strength >= 75.0 then 1 else 0)
  {
    var reached := (if strength >= 25.0 then 1 else 0) + (if strength >= 50.0 then 1 else 0)
      + (if strength >= 75.0 then 1 else 0);
    if reached == 3 then Excellent else if reached == 2 then Good else if reached == 1 then Fair else Weak
  }

  function BandText(b: Band): string {
    match b
    case Excellent => "Excellent"
    case Good => "Good"
    case Fair => "Fair"
    case Weak => "Weak"
  }

  function BandColor(b: Band): string {
    match b
    case Excellent => "text-green-500"
    case Good => "text-yellow-500"
    case Fair => "text-orange-500"
    case Weak => "text-red-500"
  }

  /** Text and colour always name the same band. */
  lemma TextAndColorAgree(strength: real)
    ensures StrengthText(strength) == BandText(BandOf(strength))
    ensures StrengthColor(strength) == BandColor(BandOf(strength))
  {
  }

  /** A stronger signal never gets a weaker band. */
  lemma BandMonotone(s: real, t: real)
    requires s <= t
    ensures Rank(BandOf(s)) <= Rank(BandOf(t))
  {
  }
}
