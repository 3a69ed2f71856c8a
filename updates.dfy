/** The update check of util/checkUpdates.kt: when a check is due, what is fetched, what
    the cache records and which version is reported. The clock readings and the fetched
    release tag are inputs; the cache file is a value passed in and returned. */
module Updates {
  import opened Text
  import opened Configs

  /** `isItTimeToCheckForAnUpdate(lastChecked, interval)` at time `now` (milliseconds). */
  predicate IsTimeToCheck(lastChecked: int, interval: int, now: int) {
    now - lastChecked >= interval
  }

  /** `removePrefix("v")`: at most one leading 'v' is dropped. */
  function RemoveLeadingV(tag: string): (r: string)
    ensures |tag| > 0 && tag[0] == 'v' ==> r == tag[1..]
    ensures !(|tag| > 0 && tag[0] == 'v') ==> r == tag
  {
    if |tag| > 0 && tag[0] == 'v' then tag[1..] else tag
  }

  /** What a check leaves behind: the cache, the version reported, and the banner shown
      (Some(true) for "new version available", Some(false) for "not available", None for
      no banner). */
  datatype Check = Check(cache: AppCache, version: string, banner: Option<bool>)

  /** `checkUpdates(justChecking)`: when a check is due and the release tag can be
      fetched (`fetched`; None when the request or its decoding throws), the tag without
      its 'v' is recorded with the time of saving (`savedAt`) and returned; otherwise the
      cached version is returned and the cache is left alone. The banner compares the tag
      with the running version (`current`) unless `justChecking`. */
  function CheckUpdates(cache: AppCache, interval: int, now: int, savedAt: int,
                        fetched: Option<string>, justChecking: bool, current: string): (r: Check)
    ensures !IsTimeToCheck(cache.update.lastChecked, interval, now) || fetched.None? ==>
      r.cache == cache && r.version == cache.update.version && r.banner.None?
    ensures IsTimeToCheck(cache.update.lastChecked, interval, now) && fetched.Some? ==>
      && r.version == RemoveLeadingV(fetched.value)
      && r.cache == AppCache(CacheGithubRelease(r.version, savedAt))
      && (justChecking <==> r.banner.None?)
      && (r.banner.Some? ==> r.banner.value == (current != r.version))
  {
    if IsTimeToCheck(cache.update.lastChecked, interval, now) && fetched.Some? then
      var latest := RemoveLeadingV(fetched.value);
      var banner := if justChecking then None else Some(current != latest);
      Check(AppCache(CacheGithubRelease(latest, savedAt)), latest, banner)
    else Check(cache, cache.update.version, None)
  }

  /** After a successful check, any check within the interval of the saving time reports
      the same version from the cache, whatever a fetch would have returned. */
  lemma RecheckUsesCache(cache: AppCache, interval: int, now: int, savedAt: int, tag: string,
                         justChecking: bool, current: string,
                         later: int, laterSaved: int, laterFetch: Option<string>, quiet: bool)
    requires IsTimeToCheck(cache.update.lastChecked, interval, now)
    requires later - savedAt < interval
    ensures var first := CheckUpdates(cache, interval, now, savedAt, Some(tag), justChecking, current);
      var second := CheckUpdates(first.cache, interval, later, laterSaved, laterFetch, quiet, current);
      second.version == first.version && second.cache == first.cache
  {
  }

  /** The reported version never depends on `justChecking`. */
  lemma QuietCheckReportsTheSame(cache: AppCache, interval: int, now: int, savedAt: int,
                                 fetched: Option<string>, current: string)
    ensures CheckUpdates(cache, interval, now, savedAt, fetched, true, current).version
         == CheckUpdates(cache, interval, now, savedAt, fetched, false, current).version
    ensures CheckUpdates(cache, interval, now, savedAt, fetched, true, current).cache
         == CheckUpdates(cache, interval, now, savedAt, fetched, false, current).cache
  {
  }

  /** Only one 'v' is removed: "vv1.0" reports "v1.0". */
  lemma OneLeadingVRemoved()
    ensures RemoveLeadingV("vv1.0") == "v1.0" && RemoveLeadingV("1.0") == "1.0"
  {
  }
}
