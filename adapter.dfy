/**
 * The pure rules inside EarthquakeAdapter.java: how a raw location is split
 * into an offset and a primary location, and which colour bucket a magnitude
 * gets; and the adapter's backing list, which the activity clears and refills.
 */
module Adapter {
  import opened Wrappers
  import opened JavaStrings
  import opened EarthQuakes

  /** The text the location is split at. */
  const Separator: string := "of"

  /** The offset shown when the location has no separator. */
  const NearThe: string := "Near the"

  /** The two texts a list item shows for a location. */
  datatype LocationText = LocationText(offset: string, primary: string)

  /** The exception the location rule of `getView`, as written, can raise. */
  datatype ViewError = ArrayIndexOutOfBounds(index: nat)

  // ----- Location splitting -------------------------------------------------

  /**
   * The location rule of `getView`, as written: a location that contains "of"
   * is split at EVERY "of" with `String.split`; piece 0 followed by "of" is the
   * offset and piece 1 the primary location. When the split leaves fewer than
   * two pieces, indexing the array throws.
   */
  function SplitLocation(location: string): Result<LocationText, ViewError>
  {
    if Contains(location, Separator) then
      var locations := Split(location, Separator);
      if |locations| == 0 then Failure(ArrayIndexOutOfBounds(0))
      else if |locations| == 1 then Failure(ArrayIndexOutOfBounds(1))
      else Success(LocationText(locations[0] + Separator, locations[1]))
    else
      Success(LocationText(NearThe, location))
  }

  /** Some string at index `from` or later is non-empty. */
  predicate SomeNonEmptyFrom(ps: seq<string>, from: nat)
  {
    exists j :: from <= j < |ps| && ps[j] != ""
  }

  /** Putting a string in front shifts the indices by one. */
  lemma SomeNonEmptyCons(h: string, tail: seq<string>)
    ensures SomeNonEmptyFrom([h] + tail, 1) <==> SomeNonEmptyFrom(tail, 0)
    ensures SomeNonEmptyFrom([h] + tail, 0) <==> h != "" || SomeNonEmptyFrom(tail, 0)
  {
    var ps := [h] + tail;
    if SomeNonEmptyFrom(ps, 0) {
      var j :| 0 <= j < |ps| && ps[j] != "";
      if j > 0 { assert tail[j - 1] == ps[j]; }
    }
    if SomeNonEmptyFrom(tail, 0) {
      var k :| 0 <= k < |tail| && tail[k] != "";
      assert ps[k + 1] == tail[k];
    }
    if h != "" { assert ps[0] != ""; }
  }

  /** The pieces of a location that contains the separator: the text before it, then the pieces of the rest. */
  lemma PiecesAtFirst(location: string)
    requires Contains(location, Separator)
    ensures Pieces(location, Separator) ==
      [location[..IndexOf(location, Separator)]] + Pieces(AfterFirst(location, Separator), Separator)
  {
  }

  /** How many pieces `split` keeps of a location that contains the separator. */
  lemma SplitCount(location: string)
    requires Contains(location, Separator)
    ensures var rest := AfterFirst(location, Separator);
      (|Split(location, Separator)| >= 2 <==> !OnlySeparators(rest, Separator)) &&
      (|Split(location, Separator)| == 0 <==> IndexOf(location, Separator) == 0 && OnlySeparators(rest, Separator))
  {
    var i := IndexOf(location, Separator);
    var rest := AfterFirst(location, Separator);
    var ps := Pieces(location, Separator);
    PiecesAtFirst(location);
    SomeNonEmptyCons(location[..i], Pieces(rest, Separator));
    AllPiecesEmptyIff(rest, Separator);
    TrimLongerThan(ps, 1);
    TrimLongerThan(ps, 0);
  }

  /** The first two pieces `split` keeps, when it keeps two. */
  lemma SplitFirstTwo(location: string)
    requires Contains(location, Separator) && |Split(location, Separator)| >= 2
    ensures Split(location, Separator)[0] == location[..IndexOf(location, Separator)]
    ensures Split(location, Separator)[1] == UpToFirst(AfterFirst(location, Separator), Separator)
  {
    var ps := Pieces(location, Separator);
    PiecesAtFirst(location);
    var r := TrimTrailingEmpty(ps);
    assert r[0] == ps[0] && r[1] == ps[1];
  }

  /** A location without "of" keeps its text as the primary location, with "Near the" as offset. */
  lemma SplitLocationWithoutSeparator(location: string)
    requires !Contains(location, Separator)
    ensures SplitLocation(location) == Success(LocationText(NearThe, location))
  {
  }

  /**
   * Splitting fails exactly when the location contains "of" and nothing but
   * further copies of "of" follow its first one; it fails at index 0 when,
   * moreover, the location starts with "of" (every piece is empty).
   */
  lemma SplitLocationFailsIff(location: string)
    ensures SplitLocation(location).Failure? <==>
      Contains(location, Separator) && OnlySeparators(AfterFirst(location, Separator), Separator)
    ensures SplitLocation(location) == Failure(ArrayIndexOutOfBounds(0)) <==>
      Contains(location, Separator) && IndexOf(location, Separator) == 0 &&
      OnlySeparators(AfterFirst(location, Separator), Separator)
  {
    if Contains(location, Separator) {
      SplitCount(location);
    }
  }

  /** The offset is the text before the first "of", followed by "of". */
  lemma SplitLocationOffset(location: string)
    requires Contains(location, Separator) && SplitLocation(location).Success?
    ensures SplitLocation(location).value.offset == location[..IndexOf(location, Separator)] + Separator
  {
    SplitCount(location);
    SplitFirstTwo(location);
  }

  /**
   * The primary location is the text between the first and the second "of",
   * or up to the end when "of" occurs only once.
   */
  lemma SplitLocationPrimary(location: string)
    requires Contains(location, Separator) && SplitLocation(location).Success?
    ensures SplitLocation(location).value.primary == UpToFirst(AfterFirst(location, Separator), Separator)
  {
    SplitCount(location);
    SplitFirstTwo(location);
  }

  /**
   * The location rule as evidently intended: split at the first "of" only, so
   * that the offset and the primary location always give back the whole text.
   */
  function SplitLocationAtFirst(location: string): (t: LocationText)
    ensures Contains(location, Separator) ==> t.offset + t.primary == location
    ensures Contains(location, Separator) ==> t.offset == location[..IndexOf(location, Separator)] + Separator
    ensures !Contains(location, Separator) ==> t == LocationText(NearThe, location)
  {
    var i := IndexOf(location, Separator);
    if i < 0 then LocationText(NearThe, location)
    else LocationText(location[..i + |Separator|], location[i + |Separator|..])
  }

  /**
   * Where "of" occurs at most once and, if it occurs, some text follows it, the
   * rule as written and the corrected rule agree.
   */
  lemma SplitLocationAgreesWithAtFirst(location: string)
    requires Contains(location, Separator) ==>
      !Contains(AfterFirst(location, Separator), Separator) && AfterFirst(location, Separator) != ""
    ensures SplitLocation(location) == Success(SplitLocationAtFirst(location))
  {
    if Contains(location, Separator) {
      var i := IndexOf(location, Separator);
      SplitCount(location);
      SplitFirstTwo(location);
      assert location[..i + |Separator|] == location[..i] + Separator;
    }
  }

  /** With a single "of" followed by some text, offset and primary location together give back the location. */
  lemma SplitLocationReconstructs(location: string)
    requires Contains(location, Separator)
    requires !Contains(AfterFirst(location, Separator), Separator) && AfterFirst(location, Separator) != ""
    ensures SplitLocation(location).Success?
    ensures SplitLocation(location).value.offset + SplitLocation(location).value.primary == location
  {
    SplitLocationAgreesWithAtFirst(location);
  }

  /** A location that ends with its only "of" makes `getView` throw at `locations[1]`. */
  lemma TrailingSeparatorThrows()
    ensures SplitLocation("10km S of") == Failure(ArrayIndexOutOfBounds(1))
    ensures SplitLocationAtFirst("10km S of") == LocationText("10km S of", "")
  {
    FoundAfter("10km S ", Separator, "");
    assert "10km S of" == "10km S " + Separator + "";
    SplitLocationFailsIff("10km S of");
  }

  /**
   * "of" is first found right after a text that does not contain it: it cannot
   * start one character earlier, since its own first letter is not its last.
   */
  lemma FoundAfterSeparatorFree(p: string, rest: string)
    requires !Contains(p, Separator)
    ensures IndexOf(p + Separator + rest, Separator) == |p|
  {
    var s := p + Separator + rest;
    assert OccursAt(s, Separator, |p|) by {
      assert s[|p|..|p| + 2] == Separator;
    }
    forall j | 0 <= j < |p| ensures !OccursAt(s, Separator, j) {
      if j + 2 <= |p| {
        assert s[j..j + 2] == p[j..j + 2];
        assert !OccursAt(p, Separator, j);
      } else {
        assert s[j + 1] == Separator[0];
        assert j + 2 <= |s| ==> s[j..j + 2][1] == s[j + 1];
      }
    }
  }

  /** Text that starts with something other than "of" is not made of separators only. */
  lemma NotOnlySeparators(primary: string, after: string)
    requires !Contains(primary, Separator) && primary != ""
    ensures !OnlySeparators(primary + Separator + after, Separator)
  {
    var rest := primary + Separator + after;
    if |primary| >= 2 {
      assert rest[..2] == primary[..2];
      assert !OccursAt(primary, Separator, 0);
      assert primary[0..2] == primary[..2];
    } else {
      assert rest[1] == Separator[0];
    }
  }

  /**
   * With two occurrences of "of", the primary location stops at the second one:
   * whatever follows it is lost.
   */
  lemma SplitLocationStopsAtSecond(before: string, primary: string, after: string)
    requires !Contains(before, Separator) && !Contains(primary, Separator) && primary != ""
    ensures SplitLocation(before + Separator + primary + Separator + after) ==
      Success(LocationText(before + Separator, primary))
    ensures var text := SplitLocation(before + Separator + primary + Separator + after).value;
      text.offset + text.primary != before + Separator + primary + Separator + after
  {
    var rest := primary + Separator + after;
    var location := before + Separator + rest;
    assert location == before + Separator + primary + Separator + after;
    FoundAfterSeparatorFree(before, rest);
    assert AfterFirst(location, Separator) == rest;
    assert location[..IndexOf(location, Separator)] == before;
    FoundAfterSeparatorFree(primary, after);
    assert UpToFirst(rest, Separator) == primary;
    NotOnlySeparators(primary, after);
    SplitLocationFailsIff(location);
    SplitLocationOffset(location);
    SplitLocationPrimary(location);
  }

  /** The case of `SplitLocationStopsAtSecond` where no 'o' precedes the second "of", checked letter by letter. */
  lemma SplitLocationStopsAtSecondLetterFree(before: string, primary: string, after: string)
    requires Separator[0] !in before && Separator[0] !in primary && primary != ""
    ensures SplitLocation(before + Separator + primary + Separator + after) ==
      Success(LocationText(before + Separator, primary))
    ensures var text := SplitLocation(before + Separator + primary + Separator + after).value;
      text.offset + text.primary != before + Separator + primary + Separator + after
  {
    NotFoundIn(before, Separator);
    NotFoundIn(primary, Separator);
    SplitLocationStopsAtSecond(before, primary, after);
  }

  /** A second "of" cuts the primary location short, so the two texts no longer give back the location. */
  lemma SecondSeparatorTruncates()
    ensures SplitLocation("3km N of Isle of Man") == Success(LocationText("3km N of", " Isle "))
    ensures var text := SplitLocation("3km N of Isle of Man").value;
      text.offset + text.primary != "3km N of Isle of Man"
  {
    var before, primary, after := "3km N ", " Isle ", " Man";
    assert "3km N of Isle of Man" == before + Separator + primary + Separator + after;
    SplitLocationStopsAtSecondLetterFree(before, primary, after);
    assert before + Separator == "3km N of";
  }

  // ----- Magnitude colour ---------------------------------------------------

  /** The colour resources of the magnitude circle, one per bucket. */
  datatype MagnitudeColor =
    | Magnitude1 | Magnitude2 | Magnitude3 | Magnitude4 | Magnitude5
    | Magnitude6 | Magnitude7 | Magnitude8 | Magnitude9 | Magnitude10Plus

  /** The number in the resource's name. */
  function Level(c: MagnitudeColor): nat
  {
    match c
    case Magnitude1 => 1
    case Magnitude2 => 2
    case Magnitude3 => 3
    case Magnitude4 => 4
    case Magnitude5 => 5
    case Magnitude6 => 6
    case Magnitude7 => 7
    case Magnitude8 => 8
    case Magnitude9 => 9
    case Magnitude10Plus => 10
  }

  /** The `switch` of `getMagnitudeColor` on the floored magnitude. */
  function MagnitudeBucket(magnitudeFloor: int): MagnitudeColor
  {
    match magnitudeFloor
    case 0 => Magnitude1
    case 1 => Magnitude1
    case 2 => Magnitude2
    case 3 => Magnitude3
    case 4 => Magnitude4
    case 5 => Magnitude5
    case 6 => Magnitude6
    case 7 => Magnitude7
    case 8 => Magnitude8
    case 9 => Magnitude9
    case _ => Magnitude10Plus
  }

  /**
   * Floors 0 and 1 share bucket 1, a floor k from 2 to 9 gets bucket k, and every
   * other floor (negative ones included) gets the 10+ bucket.
   */
  lemma MagnitudeBucketLevel(magnitudeFloor: int)
    ensures Level(MagnitudeBucket(magnitudeFloor)) ==
      if 0 <= magnitudeFloor <= 1 then 1
      else if 2 <= magnitudeFloor <= 9 then magnitudeFloor
      else 10
  {
  }

  /** Java's `(int)` cast of an integral `double`: values beyond the `int` range saturate. */
  function ToJavaInt(x: int): int
  {
    if x < -0x8000_0000 then -0x8000_0000
    else if x > 0x7fff_ffff then 0x7fff_ffff
    else x
  }

  /** `getMagnitudeColor` up to the resource lookup: `(int) Math.floor(magnitude)` picks the bucket. */
  function GetMagnitudeColor(magnitude: real): MagnitudeColor
  {
    MagnitudeBucket(ToJavaInt(magnitude.Floor))
  }

  /** The magnitudes each bucket is meant for. */
  predicate InBand(c: MagnitudeColor, magnitude: real)
  {
    match c
    case Magnitude1 => 0.0 <= magnitude < 2.0
    case Magnitude10Plus => magnitude < 0.0 || 10.0 <= magnitude
    case _ => Level(c) as real <= magnitude < Level(c) as real + 1.0
  }

  /** A magnitude gets a bucket exactly when it lies in that bucket's band; the bands cover every magnitude. */
  lemma MagnitudeColorBands(magnitude: real, c: MagnitudeColor)
    ensures GetMagnitudeColor(magnitude) == c <==> InBand(c, magnitude)
  {
    var f := magnitude.Floor;
    assert f as real <= magnitude < f as real + 1.0;
    if 0 <= f <= 9 {
      assert ToJavaInt(f) == f;
    }
    MagnitudeBucketLevel(ToJavaInt(f));
  }

  // ----- The adapter's backing list ----------------------------------------

  /** What one list item shows, up to the number and date formatting. */
  datatype ListItem = ListItem(color: MagnitudeColor, location: LocationText)

  /** The list adapter: a backing list of earthquakes that the activity clears and refills. */
  class EarthquakeAdapter {
    var items: seq<EarthQuake>

    constructor (earthquakes: seq<EarthQuake>)
      ensures items == earthquakes
    {
      items := earthquakes;
    }

    /** `ArrayAdapter.clear`. */
    method Clear()
      modifies this
      ensures items == []
    {
      items := [];
    }

    /** `ArrayAdapter.addAll`: appends the given earthquakes in their order. */
    method AddAll(data: seq<EarthQuake>)
      modifies this
      ensures items == old(items) + data
    {
      items := items + data;
    }

    /** `ArrayAdapter.getItem`. */
    function GetItem(position: nat): EarthQuake
      reads this
      requires position < |items|
    {
      items[position]
    }

    /**
     * The data `getView` shows for the item at `position`: the colour bucket of
     * its magnitude and its location split at the first "of" (the corrected
     * rule; `SplitLocation` is the rule as written, which can throw).
     */
    function GetView(position: nat): (item: ListItem)
      reads this
      requires position < |items|
      ensures InBand(item.color, GetItem(position).GetMagnitude())
      ensures Contains(GetItem(position).GetLocation(), Separator) ==>
        item.location.offset + item.location.primary == GetItem(position).GetLocation()
      ensures Contains(GetItem(position).GetLocation(), Separator) ==>
        item.location.offset ==
          GetItem(position).GetLocation()[..IndexOf(GetItem(position).GetLocation(), Separator)] + Separator
      ensures !Contains(GetItem(position).GetLocation(), Separator) ==>
        item.location == LocationText(NearThe, GetItem(position).GetLocation())
    {
      var currentEarthquake := GetItem(position);
      var color := GetMagnitudeColor(currentEarthquake.GetMagnitude());
      MagnitudeColorBands(currentEarthquake.GetMagnitude(), color);
      ListItem(color, SplitLocationAtFirst(currentEarthquake.GetLocation()))
    }
  }
}
