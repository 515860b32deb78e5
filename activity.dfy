/**
 * EarthquakeActivity.java: the request the activity builds from the user's
 * settings, the loader's guard against a missing address, and how the adapter's
 * list is replaced when a load finishes or the loader is reset.
 */
module Activity {
  import opened Wrappers
  import opened Uris
  import opened EarthQuakes
  import opened Adapter

  /** The USGS query endpoint every request is built upon. */
  const UsgsRequestUrl: string := "https://earthquake.usgs.gov/fdsnws/event/1/query"

  /** The empty-view text when the device reports no connection. */
  const NoConnectionMessage: string := "Error while getting earthquakes. No internet connection detected"

  /** The empty-view text once a load has finished. */
  const NoEarthquakesMessage: string := "No Earthquakes found"

  /**
   * The keys and default values of the two settings, which the activity reads
   * from its string resources; the resource files are not part of this model.
   */
  datatype SettingsResources = SettingsResources(
    minMagnitudeKey: string, minMagnitudeDefault: string,
    orderByKey: string, orderByDefault: string)

  /** `SharedPreferences.getString`: the stored value, or the default when none is stored. */
  function GetString(prefs: map<string, string>, key: string, defValue: string): string
  {
    if key in prefs then prefs[key] else defValue
  }

  // ----- Request composition ------------------------------------------------

  /** The request `onCreateLoader` composes from the two setting values. */
  function RequestUri(minMagnitude: string, orderBy: string): Uri
  {
    Uri(UsgsRequestUrl, [
      QueryParameter("format", "geojson"),
      QueryParameter("eventtype", "earthquake"),
      QueryParameter("limit", "10"),
      QueryParameter("minmag", minMagnitude),
      QueryParameter("orderby", orderBy)])
  }

  /**
   * The request has the fixed base and exactly five parameters, keyed format,
   * eventtype, limit, minmag and orderby in that order; the first three values
   * are constants and the last two are the setting values unchanged.
   */
  lemma RequestUriShape(minMagnitude: string, orderBy: string)
    ensures var u := RequestUri(minMagnitude, orderBy);
      u.base == UsgsRequestUrl &&
      |u.query| == 5 &&
      (seq(5, k requires 0 <= k < 5 => u.query[k].key)) == ["format", "eventtype", "limit", "minmag", "orderby"] &&
      u.query[..3] == RequestUri("", "").query[..3] &&
      u.query[0].value == "geojson" && u.query[1].value == "earthquake" && u.query[2].value == "10" &&
      u.query[3].value == minMagnitude && u.query[4].value == orderBy
  {
  }

  /** The value of the minmag setting, or its default. */
  function MinMagnitude(prefs: map<string, string>, res: SettingsResources): string
  {
    GetString(prefs, res.minMagnitudeKey, res.minMagnitudeDefault)
  }

  /** The value of the orderby setting, or its default. */
  function OrderBy(prefs: map<string, string>, res: SettingsResources): string
  {
    GetString(prefs, res.orderByKey, res.orderByDefault)
  }

  /** The address string the loader receives for the given settings. */
  function RequestUrl(prefs: map<string, string>, res: SettingsResources, encode: string -> string): string
  {
    Render(RequestUri(MinMagnitude(prefs, res), OrderBy(prefs, res)), encode)
  }

  /** The loader: it keeps the address it was created with, which may be null. */
  datatype EarthQuakeLoader = EarthQuakeLoader(urlString: Option<string>)

  /**
   * `onCreateLoader`: reads the two settings, grows a builder on the USGS
   * endpoint by five `appendQueryParameter` calls, and hands the rendered
   * address to a new loader.
   */
  method OnCreateLoader(prefs: map<string, string>, res: SettingsResources, encode: string -> string)
    returns (loader: EarthQuakeLoader)
    ensures loader.urlString == Some(Render(RequestUri(MinMagnitude(prefs, res), OrderBy(prefs, res)), encode))
  {
    var minMagnitude := GetString(prefs, res.minMagnitudeKey, res.minMagnitudeDefault);
    var orderBy := GetString(prefs, res.orderByKey, res.orderByDefault);
    var uriBuilder := new UriBuilder.BuildUpon(UsgsRequestUrl);
    uriBuilder.AppendQueryParameter("format", "geojson");
    uriBuilder.AppendQueryParameter("eventtype", "earthquake");
    uriBuilder.AppendQueryParameter("limit", "10");
    uriBuilder.AppendQueryParameter("minmag", minMagnitude);
    uriBuilder.AppendQueryParameter("orderby", orderBy);
    assert uriBuilder.Build() == RequestUri(minMagnitude, orderBy);
    loader := EarthQuakeLoader(Some(Render(uriBuilder.Build(), encode)));
  }

  /**
   * The address the loader receives carries the request whole: read back with
   * the inverse of the encoder, it gives the USGS endpoint and the five
   * parameters, with the setting values as stored (or their defaults).
   */
  lemma RequestUrlCarriesSettings(
    prefs: map<string, string>, res: SettingsResources,
    encode: string -> string, decode: string -> string)
    requires forall s :: decode(encode(s)) == s
    requires forall s :: '&' !in encode(s) && '=' !in encode(s)
    ensures ParseUri(RequestUrl(prefs, res, encode), decode) ==
      Uri(UsgsRequestUrl, [
        QueryParameter("format", "geojson"),
        QueryParameter("eventtype", "earthquake"),
        QueryParameter("limit", "10"),
        QueryParameter("minmag", if res.minMagnitudeKey in prefs then prefs[res.minMagnitudeKey] else res.minMagnitudeDefault),
        QueryParameter("orderby", if res.orderByKey in prefs then prefs[res.orderByKey] else res.orderByDefault)])
  {
    EndpointHasNoQuery();
    ParseRender(RequestUri(MinMagnitude(prefs, res), OrderBy(prefs, res)), encode, decode);
  }

  /** The endpoint has no query of its own. */
  lemma EndpointHasNoQuery()
    ensures '?' !in UsgsRequestUrl
  {
    assert UsgsRequestUrl == "https://earthquake.usgs.gov" + "/fdsnws/event/1/query";
    assert '?' !in "https://earthquake.usgs.gov";
    assert '?' !in "/fdsnws/event/1/query";
  }

  /** The rendered address starts with the USGS endpoint followed by `?`. */
  lemma RequestUrlStartsWithEndpoint(prefs: map<string, string>, res: SettingsResources, encode: string -> string)
    ensures |UsgsRequestUrl| < |RequestUrl(prefs, res, encode)|
    ensures RequestUrl(prefs, res, encode)[..|UsgsRequestUrl| + 1] == UsgsRequestUrl + "?"
  {
  }

  // ----- Loading ------------------------------------------------------------

  /**
   * `loadInBackground`: a null address gives a null result; otherwise the result
   * of the feed extractor, which is a parameter here because its source is not
   * part of this model.
   */
  function LoadInBackground(loader: EarthQuakeLoader, extract: string -> Option<seq<EarthQuake>>): Option<seq<EarthQuake>>
  {
    match loader.urlString
    case None => None
    case Some(url) => extract(url)
  }

  /** With a null address the result is null whatever the extractor would do: it is never consulted. */
  lemma NullUrlSkipsExtractor(extract: string -> Option<seq<EarthQuake>>, other: string -> Option<seq<EarthQuake>>)
    ensures LoadInBackground(EarthQuakeLoader(None), extract) == None
    ensures LoadInBackground(EarthQuakeLoader(None), extract) == LoadInBackground(EarthQuakeLoader(None), other)
  {
  }

  /**
   * The adapter's list after a load delivers `data`: either empty or exactly the
   * delivered list, and non-empty exactly when the delivered list is non-null
   * and non-empty. Nothing from before the load is kept.
   */
  function ItemsAfterLoad(data: Option<seq<EarthQuake>>): (items: seq<EarthQuake>)
    ensures items == [] || Some(items) == data
    ensures items != [] <==> data.Some? && data.value != []
  {
    if data.Some? && |data.value| > 0 then data.value else []
  }

  /** What a load with a given address shows: the extracted list when it is non-null and non-empty, otherwise nothing. */
  lemma ItemsAfterLoadingUrl(url: Option<string>, extract: string -> Option<seq<EarthQuake>>)
    ensures url.None? ==> ItemsAfterLoad(LoadInBackground(EarthQuakeLoader(url), extract)) == []
    ensures url.Some? && extract(url.value).Some? && extract(url.value).value != [] ==>
      ItemsAfterLoad(LoadInBackground(EarthQuakeLoader(url), extract)) == extract(url.value).value
    ensures url.Some? && (extract(url.value).None? || extract(url.value).value == []) ==>
      ItemsAfterLoad(LoadInBackground(EarthQuakeLoader(url), extract)) == []
  {
  }

  // ----- The activity -------------------------------------------------------

  /**
   * The activity's state: the adapter behind the list view, the loader it
   * started (if any), whether the progress bar has been hidden, and the text
   * it has set on the empty view (`None` while it still shows the layout's own).
   */
  class EarthquakeActivity {
    var adapter: EarthquakeAdapter
    var loader: Option<EarthQuakeLoader>
    var progressGone: bool
    var emptyText: Option<string>

    /**
     * `onCreate`: an empty adapter; the loader is created only when the device
     * reports a connection, and otherwise the progress bar is hidden and the
     * empty view says that there is no connection.
     */
    constructor OnCreate(connected: bool, prefs: map<string, string>, res: SettingsResources, encode: string -> string)
      ensures fresh(adapter) && adapter.items == []
      ensures connected ==>
        loader == Some(EarthQuakeLoader(Some(RequestUrl(prefs, res, encode)))) &&
        !progressGone && emptyText == None
      ensures !connected ==>
        loader == None && progressGone && emptyText == Some(NoConnectionMessage)
    {
      adapter := new EarthquakeAdapter([]);
      if connected {
        var created := OnCreateLoader(prefs, res, encode);
        loader := Some(created);
        progressGone := false;
        emptyText := None;
      } else {
        loader := None;
        progressGone := true;
        emptyText := Some(NoConnectionMessage);
      }
    }

    /**
     * `onLoadFinished`: the empty view's text changes, the progress bar is
     * hidden, the adapter is cleared and refilled only with a non-null,
     * non-empty result.
     */
    method OnLoadFinished(data: Option<seq<EarthQuake>>)
      modifies this, adapter
      ensures adapter == old(adapter) && loader == old(loader)
      ensures adapter.items == ItemsAfterLoad(data)
      ensures progressGone && emptyText == Some(NoEarthquakesMessage)
    {
      emptyText := Some(NoEarthquakesMessage);
      progressGone := true;
      adapter.Clear();
      if data.Some? && |data.value| > 0 {
        adapter.AddAll(data.value);
      }
    }

    /** `onLoaderReset`: the adapter is cleared and nothing else changes. */
    method OnLoaderReset()
      modifies adapter
      ensures adapter.items == []
    {
      adapter.Clear();
    }

    /**
     * One load as the loader manager sequences it: when a loader was started,
     * its background result is delivered to `onLoadFinished`; without one,
     * nothing happens.
     */
    method RunLoad(extract: string -> Option<seq<EarthQuake>>)
      modifies this, adapter
      ensures adapter == old(adapter) && loader == old(loader)
      ensures old(loader).Some? ==>
        adapter.items == ItemsAfterLoad(LoadInBackground(old(loader).value, extract)) &&
        progressGone && emptyText == Some(NoEarthquakesMessage)
      ensures old(loader).None? ==>
        adapter.items == old(adapter.items) && progressGone == old(progressGone) && emptyText == old(emptyText)
    {
      if loader.Some? {
        var data := LoadInBackground(loader.value, extract);
        OnLoadFinished(data);
      }
    }
  }
}
