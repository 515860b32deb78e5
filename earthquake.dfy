/** The earthquake record of EarthQuake.java: four values fixed at construction and only read afterwards. */
module EarthQuakes {

  /** Java's `long`: a 64-bit two's-complement integer. */
  type Long = x: int | -0x8000_0000_0000_0000 <= x < 0x8000_0000_0000_0000

  /**
   * One earthquake: its magnitude (a Java `double`, modelled as a real number),
   * the place it happened, the time it happened in milliseconds since the epoch,
   * and the link to the web page with its details. The record has no setters:
   * a datatype value cannot change once built.
   */
  datatype EarthQuake = EarthQuake(magnitude: real, location: string, timeInMilliseconds: Long, url: string)
  {
    function GetMagnitude(): real { magnitude }
    function GetLocation(): string { location }
    function GetTimeInMilliseconds(): Long { timeInMilliseconds }
    function GetUrl(): string { url }
  }

  /** Each getter returns exactly the value given to the constructor. */
  lemma GettersReturnConstructorArguments(magnitude: real, location: string, time: Long, url: string)
    ensures EarthQuake(magnitude, location, time, url).GetMagnitude() == magnitude
    ensures EarthQuake(magnitude, location, time, url).GetLocation() == location
    ensures EarthQuake(magnitude, location, time, url).GetTimeInMilliseconds() == time
    ensures EarthQuake(magnitude, location, time, url).GetUrl() == url
  {
  }

  /** The four getters determine the record: there is no hidden state besides what they return. */
  lemma DeterminedByGetters(a: EarthQuake, b: EarthQuake)
    ensures a == b <==>
      a.GetMagnitude() == b.GetMagnitude() && a.GetLocation() == b.GetLocation() &&
      a.GetTimeInMilliseconds() == b.GetTimeInMilliseconds() && a.GetUrl() == b.GetUrl()
  {
  }
}
