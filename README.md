# QuakeReport core, modelled in Dafny

QuakeReport is an Android app that lists recent earthquakes from the USGS
feed. This project models the parts of its code that are plain logic:

- the earthquake record (`EarthQuake`): magnitude, location, time in
  milliseconds and detail URL, fixed when the record is built;
- the request `onCreateLoader` composes: the USGS query endpoint plus five
  query parameters (`format`, `eventtype`, `limit`, `minmag`, `orderby`) in a
  fixed order, the last two taken from the user's settings;
- the loader's guard (`loadInBackground` returns null for a null address) and
  how the adapter's list is replaced when a load finishes (`onLoadFinished`)
  or the loader is reset (`onLoaderReset`), and the connected-only start of the
  loader in `onCreate`;
- the two pure rules of the list adapter: splitting a location such as
  "12km NE of Example City" into an offset ("12km NE of") and a primary
  location (" Example City"), and choosing a colour bucket from the floored
  magnitude.

Modules, one per source file plus helpers:

- `EarthQuakes` (earthquake.dfy): the record as a datatype with its getters.
- `Adapter` (adapter.dfy): the location split as written (`SplitLocation`) and
  corrected (`SplitLocationAtFirst`), the magnitude buckets, and the
  `EarthquakeAdapter` class holding the backing list.
- `Activity` (activity.dfy): request composition, `loadInBackground`, and the
  `EarthquakeActivity` class whose methods update the adapter in place.
- `Uris` (uris.dfy): `Uri.Builder` as a class whose query grows by
  `AppendQueryParameter`, the rendering to a string, and its inverse used to
  prove that the rendered address carries the pairs.
- `JavaStrings` (java_strings.dfy): `String.indexOf`, `contains` and `split`
  (with a literal separator and a limit of 0, so trailing empty pieces are
  dropped, and a string without the separator comes back whole).
- `Wrappers` (wrappers.dfy): `Option` for Java's null, `Result` for a thrown exception.

Two collaborators whose code is not part of this model are parameters: the
feed extractor `QueryUtils.extractEarthquakes` is `extract: string ->
Option<seq<EarthQuake>>`, and the percent-encoder of `Uri.Builder` is
`encode: string -> string`. The device's connectivity is a boolean input.

`onLoadFinished` (EarthquakeActivity.java:157) handles a null or empty list
from the loader. What the extractor does when the network or the feed fails is
not shown in these files; the model takes `extract` as a total function that
returns either no list or a list, and the loader life cycle is left to the
Android framework.

## Model

| member | source | states |
|---|---|---|
| `EarthQuakes.GettersReturnConstructorArguments` | app/src/main/java/com/example/android/quakereport/EarthQuake.java:31-61 | each of the four getters returns exactly the value passed to the constructor |
| `EarthQuakes.DeterminedByGetters` | app/src/main/java/com/example/android/quakereport/EarthQuake.java:11-20 | two records are equal exactly when their four getters agree: there is no other state, and (being a value) none of it can change after construction |
| `JavaStrings.IndexOf` | app/src/main/java/com/example/android/quakereport/EarthquakeAdapter.java:85 | `indexOf` returns an index where the separator occurs with no occurrence before it, or -1 exactly when it occurs nowhere; `contains` is `indexOf >= 0` |
| `JavaStrings.TrimTrailingEmpty` | app/src/main/java/com/example/android/quakereport/EarthquakeAdapter.java:86 | the limit-0 trimming of `split` keeps a prefix of the pieces, ends in a non-empty piece (or keeps none), and drops only empty pieces |
| `JavaStrings.JoinPieces` | app/src/main/java/com/example/android/quakereport/EarthquakeAdapter.java:86 | the pieces `split` cuts at every occurrence, joined back with the separator, give the original text |
| `Adapter.SplitLocationWithoutSeparator` | app/src/main/java/com/example/android/quakereport/EarthquakeAdapter.java:89-92 | a location without "of" gives offset "Near the" and the location unchanged as primary location |
| `Adapter.SplitLocationOffset` | app/src/main/java/com/example/android/quakereport/EarthquakeAdapter.java:85-87 | when the split succeeds, the offset is the text before the first "of" followed by "of" |
| `Adapter.SplitLocationPrimary` | app/src/main/java/com/example/android/quakereport/EarthquakeAdapter.java:86-88 | when the split succeeds, the primary location is the text between the first and second "of", or to the end when there is no second one |
| `Adapter.SplitLocationFailsIff` | app/src/main/java/com/example/android/quakereport/EarthquakeAdapter.java:86-88 | the array access throws exactly when the location contains "of" and only copies of "of" follow its first one; at index 0 exactly when, moreover, the location starts with "of" |
| `Adapter.SplitLocationReconstructs` | app/src/main/java/com/example/android/quakereport/EarthquakeAdapter.java:86-88 | with exactly one "of" and some text after it, the split succeeds and offset followed by primary location is the location |
| `Adapter.SplitLocationStopsAtSecond` | app/src/main/java/com/example/android/quakereport/EarthquakeAdapter.java:86-88 | whenever neither the text before the first "of" nor the non-empty text between the first and the second contains "of", the primary location is only the text up to the second "of", so the rest of the location is lost |
| `Adapter.FoundAfterSeparatorFree` | app/src/main/java/com/example/android/quakereport/EarthquakeAdapter.java:86-88 | when the text before an "of" does not contain "of", that "of" is the first one `split` cuts at |
| `Adapter.NotOnlySeparators` | app/src/main/java/com/example/android/quakereport/EarthquakeAdapter.java:86-88 | a location with a non-empty piece before its second "of" is not made of separators alone, so `split` keeps at least one piece |
| `Adapter.SplitLocationStopsAtSecondLetterFree` | app/src/main/java/com/example/android/quakereport/EarthquakeAdapter.java:86-88 | the same truncation when no 'o' occurs before the second "of" |
| `Adapter.TrailingSeparatorThrows` | app/src/main/java/com/example/android/quakereport/EarthquakeAdapter.java:86-88 | "10km S of" makes `locations[1]` throw; the corrected rule gives offset "10km S of" and an empty primary location |
| `Adapter.SecondSeparatorTruncates` | app/src/main/java/com/example/android/quakereport/EarthquakeAdapter.java:86-88 | "3km N of Isle of Man" gives offset "3km N of" and primary " Isle ", which together no longer give the location |
| `Adapter.SplitLocationAtFirst` | app/src/main/java/com/example/android/quakereport/EarthquakeAdapter.java:83-93 | corrected rule: with "of" present, offset (the text through the first "of") followed by primary location always gives back the location; without it, "Near the" and the location |
| `Adapter.SplitLocationAgreesWithAtFirst` | app/src/main/java/com/example/android/quakereport/EarthquakeAdapter.java:85-93 | when "of" is absent, or occurs once with text after it, the rule as written succeeds and agrees with the corrected rule |
| `Adapter.MagnitudeBucketLevel` | app/src/main/java/com/example/android/quakereport/EarthquakeAdapter.java:135-166 | floors 0 and 1 map to bucket 1, a floor k from 2 to 9 to bucket k, and every other floor, negatives included, to bucket 10+ |
| `Adapter.MagnitudeColorBands` | app/src/main/java/com/example/android/quakereport/EarthquakeAdapter.java:132-167 | a magnitude gets a bucket exactly when it lies in that bucket's band ([0,2) for 1, [k,k+1) for k from 2 to 9, below 0 or from 10 up for 10+), so the mapping is total and each magnitude has one bucket |
| `Adapter.EarthquakeAdapter.constructor` | app/src/main/java/com/example/android/quakereport/EarthquakeAdapter.java:38-40 | the adapter's list is the list it is given |
| `Adapter.EarthquakeAdapter.Clear` | app/src/main/java/com/example/android/quakereport/EarthquakeActivity.java:153 | after `clear` the list is empty |
| `Adapter.EarthquakeAdapter.AddAll` | app/src/main/java/com/example/android/quakereport/EarthquakeActivity.java:158 | `addAll` appends the given earthquakes, in order, after the ones already there |
| `Adapter.EarthquakeAdapter.GetView` | app/src/main/java/com/example/android/quakereport/EarthquakeAdapter.java:56-93 | the item at a position shows a colour whose band holds its magnitude, and, when the location contains "of", an offset that is the text up to and including its first "of" and a primary location that together give back the location (otherwise "Near the" and the location) |
| `Uris.UriBuilder.BuildUpon` | app/src/main/java/com/example/android/quakereport/EarthquakeActivity.java:134-135 | a builder on the base address starts with no query parameters |
| `Uris.UriBuilder.AppendQueryParameter` | app/src/main/java/com/example/android/quakereport/EarthquakeActivity.java:137-141 | each call adds its pair after the existing ones and keeps the base |
| `Uris.ParseRender` | app/src/main/java/com/example/android/quakereport/EarthquakeActivity.java:142 | the rendered address, read back with the encoder's inverse, gives the base and every pair in order (base without `?`; encoder output free of `&` and `=`) |
| `Activity.RequestUriShape` | app/src/main/java/com/example/android/quakereport/EarthquakeActivity.java:134-141 | the request has the USGS base and exactly five parameters keyed format, eventtype, limit, minmag, orderby in that order; the first three values are "geojson", "earthquake", "10" whatever the settings, the last two are the setting values unchanged |
| `Activity.OnCreateLoader` | app/src/main/java/com/example/android/quakereport/EarthquakeActivity.java:124-143 | the loader receives the rendering of that request, built from the stored minmag and orderby settings or their defaults |
| `Activity.EndpointHasNoQuery` | app/src/main/java/com/example/android/quakereport/EarthquakeActivity.java:52 | the USGS endpoint carries no query of its own |
| `Activity.RequestUrlCarriesSettings` | app/src/main/java/com/example/android/quakereport/EarthquakeActivity.java:127-142 | the address the loader receives reads back as the USGS endpoint with the five pairs, minmag and orderby being the stored settings or their defaults |
| `Activity.RequestUrlStartsWithEndpoint` | app/src/main/java/com/example/android/quakereport/EarthquakeActivity.java:134-142 | the address the loader receives starts with the USGS endpoint followed by `?` |
| `Activity.NullUrlSkipsExtractor` | app/src/main/java/com/example/android/quakereport/EarthquakeActivity.java:183-186 | a loader with a null address returns null, and its result does not depend on the extractor |
| `Activity.ItemsAfterLoad` | app/src/main/java/com/example/android/quakereport/EarthquakeActivity.java:153-159 | after a load the list is either empty or exactly the delivered list, and non-empty exactly when the delivered list is non-null and non-empty |
| `Activity.ItemsAfterLoadingUrl` | app/src/main/java/com/example/android/quakereport/EarthquakeActivity.java:179-187 | a null address shows nothing; otherwise the extracted list is shown when non-null and non-empty, and nothing otherwise |
| `Activity.EarthquakeActivity.OnCreate` | app/src/main/java/com/example/android/quakereport/EarthquakeActivity.java:59-85 | the adapter starts empty; with a connection the loader is created with the request address; without one no loader exists, the progress bar is hidden and the empty view shows the no-connection message |
| `Activity.EarthquakeActivity.OnLoadFinished` | app/src/main/java/com/example/android/quakereport/EarthquakeActivity.java:146-160 | the adapter's list becomes the delivered list when it is non-null and non-empty and empty otherwise, keeping none of the earlier entries; the progress bar is hidden and the empty view says no earthquakes were found |
| `Activity.EarthquakeActivity.OnLoaderReset` | app/src/main/java/com/example/android/quakereport/EarthquakeActivity.java:163-167 | the adapter's list is empty afterwards |
| `Activity.EarthquakeActivity.RunLoad` | app/src/main/java/com/example/android/quakereport/EarthquakeActivity.java:178-194 | a started loader's background result is delivered to `onLoadFinished`; without a loader nothing changes |

## Left out

- `QueryUtils.extractEarthquakes` (the network fetch and JSON decoding) is not part of this model; it is the parameter `extract`, and no rule about skipping or ordering entries is assumed of it.
- The percent-encoding inside `Uri.Builder` is the parameter `encode`; the round trip is proved for any encoder that has an inverse and never outputs `&` or `=`, which percent-encoding satisfies. The base address is rendered as given.
- The Android loader framework: `LoaderManager.initLoader`, `AsyncTaskLoader`, `forceLoad` in `onStartLoading`, and the worker thread. `RunLoad` only sequences one load after another; concurrency, cancellation and loader reuse across configuration changes are not modelled.
- `isConnected` (a system-service query) is the boolean `connected`; the `Thread.sleep(1000)` in the no-connection branch only delays and is left out.
- The `Log.i` tracing calls in `EarthquakeActivity` (lines 74, 126, 147, 164, 181 and 192): no behaviour depends on them.
- Views: inflation, `findViewById`, `setText` on the item views, the click listener and its intent, menus and the settings screen. Of the activity's view state only the empty-view text and whether the progress bar was hidden are kept.
- `formatDecimal`, `formatDate` and `formatTime` (DecimalFormat, SimpleDateFormat, locale and time zone) and the colour lookup `ContextCompat.getColor`: the model returns the colour-resource bucket.
- Adapter.GetMagnitudeColor: the magnitude is a real number, so NaN and the infinities of a Java `double` are not modelled (Java would give NaN the floor 0 and bucket 1).
- `SharedPreferences.getString` throwing for a stored non-string value, and the values of the string resources (setting keys and defaults), which are the parameter `res`.
- A null location (a `NullPointerException` in `contains`) is not modelled: locations are strings.
- `String.split` is modelled for a separator without regular-expression metacharacters, which is the only way it is used here.
- Adapter.EarthquakeAdapter.GetView: uses the corrected location rule, so it does not throw where `getView` as written does; the rule as written is `Adapter.SplitLocation`, and the findings below say where they differ.
- Negative magnitudes get the 10+ bucket, as the code says; whether that was intended is not claimed either way.

## Findings

| source | as written | input that shows it | evidently intended | confidence | as-written member | corrected member |
|---|---|---|---|---|---|---|
| app/src/main/java/com/example/android/quakereport/EarthquakeAdapter.java:86-88 | a location whose only "of" ends it splits into a single piece, so `locations[1]` throws `ArrayIndexOutOfBoundsException` | "10km S of" | offset "10km S of" and an empty primary location, no exception | not executed; high | `Adapter.TrailingSeparatorThrows` | `Adapter.SplitLocationAtFirst` |
| app/src/main/java/com/example/android/quakereport/EarthquakeAdapter.java:86-88 | `split` cuts at every "of", so the primary location stops at a second "of" and the rest of the place name is lost | "3km N of Isle of Man" gives primary " Isle " | primary " Isle of Man", so that offset and primary give back the location | not executed; medium | `Adapter.SecondSeparatorTruncates` | `Adapter.SplitLocationAtFirst` |
