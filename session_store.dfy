/** The per-image view history BrainBox keeps in localStorage.AtlasMaker: a versioned
    envelope whose history holds one entry per image URL, most recently written last. */
module SessionStore {
  import opened Js

  /** BrainBox.version: the version an envelope must carry to be honoured. */
  const Version: int := 1

  /** The view ("sag", "cor", "axi", lower-cased) and slice last used on an image. The url
      is None when the entry was written while BrainBox.info was still `{}`: `undefined`
      is left out by JSON.stringify and reads back as `undefined`, which `==` equates only
      with itself. */
  datatype HistoryEntry = HistoryEntry(url: Option<string>, view: string, slice: int, lastVisited: string)

  datatype Envelope = Envelope(version: int, history: seq<HistoryEntry>)

  /** `stored.version && stored.version == BrainBox.version`: the envelope is present and
      its version is truthy and current. Anything else is read as no history at all. */
  predicate Current(stored: Option<Envelope>) {
    stored.Some? && stored.value.version != 0 && stored.value.version == Version
  }

  /** The position of the first entry for url, as the search loops with `break` find it. */
  function FirstMatch(h: seq<HistoryEntry>, url: Option<string>): (r: Option<nat>)
    ensures r.Some? ==> r.value < |h| && h[r.value].url == url
    ensures r.Some? ==> forall j :: 0 <= j < r.value ==> h[j].url != url
    ensures r.None? ==> forall j :: 0 <= j < |h| ==> h[j].url != url
  {
    if h == [] then None
    else if h[0].url == url then Some(0)
    else match FirstMatch(h[1..], url)
      case None => None
      case Some(i) => Some(i + 1)
  }

  /** The history with its first entry for url taken out, if it has one. */
  function RemoveFirst(h: seq<HistoryEntry>, url: Option<string>): seq<HistoryEntry> {
    if h == [] then []
    else if h[0].url == url then h[1..]
    else [h[0]] + RemoveFirst(h[1..], url)
  }

  /** RemoveFirst is `history.splice(i, 1)` at the first entry i for url, as the loop with
      `break` finds it. */
  lemma {:induction false} RemoveFirstAt(h: seq<HistoryEntry>, url: Option<string>, i: nat)
    requires i < |h| && h[i].url == url
    requires forall j :: 0 <= j < i ==> h[j].url != url
    ensures RemoveFirst(h, url) == h[..i] + h[i + 1..]
  {
    if i > 0 {
      var rest := h[1..];
      RemoveFirstAt(rest, url, i - 1);
      assert h[..i] == [h[0]] + rest[..i - 1];
      assert h[i + 1..] == rest[i..];
    }
  }

  /** Without an entry for url, RemoveFirst leaves the history as it is. */
  lemma {:induction false} RemoveFirstAbsent(h: seq<HistoryEntry>, url: Option<string>)
    requires forall j :: 0 <= j < |h| ==> h[j].url != url
    ensures RemoveFirst(h, url) == h
  {
    if h != [] {
      RemoveFirstAbsent(h[1..], url);
      assert h == [h[0]] + h[1..];
    }
  }

  /** At most one entry per url. */
  predicate UniqueUrls(h: seq<HistoryEntry>) {
    forall i, j :: 0 <= i < j < |h| ==> h[i].url != h[j].url
  }

  /** The entries whose url differs from url, in their order. */
  function Without(h: seq<HistoryEntry>, url: Option<string>): (r: seq<HistoryEntry>)
    ensures forall k :: 0 <= k < |r| ==> r[k].url != url
    ensures forall e :: e in r <==> e in h && e.url != url
  {
    if h == [] then []
    else if h[0].url == url then Without(h[1..], url)
    else [h[0]] + Without(h[1..], url)
  }

  /** The entry unload writes: the view lower-cased, or "sag" when the widget has none;
      the slice, or 0 when the widget's slice is falsy. */
  function NewEntry(url: Option<string>, view: Option<string>, slice: Option<int>, now: string): (e: HistoryEntry)
    ensures e.url == url && e.lastVisited == now
    ensures e.view != "" && HasNoUpper(e.view)
    ensures TruthyString(view) ==> e.view == ToLowerCase(view.value)
    ensures !TruthyString(view) ==> e.view == "sag"
    ensures e.slice != 0 <==> TruthyNumber(slice)
    ensures TruthyNumber(slice) ==> e.slice == slice.value
  {
    HistoryEntry(url,
                 if TruthyString(view) then ToLowerCase(view.value) else "sag",
                 if TruthyNumber(slice) then slice.value else 0,
                 now)
  }

  /** The envelope unload writes back: the current one with the entry for e.url moved to
      the end as e, or, when the stored one is missing or stale, a fresh one holding only e. */
  function Upsert(stored: Option<Envelope>, e: HistoryEntry): Envelope {
    if Current(stored) then Envelope(stored.value.version, RemoveFirst(stored.value.history, e.url) + [e])
    else Envelope(Version, [e])
  }

  /** The written envelope is current and ends with the new entry. */
  lemma UpsertEndsWithEntry(stored: Option<Envelope>, e: HistoryEntry)
    ensures Current(Some(Upsert(stored, e)))
    ensures |Upsert(stored, e).history| > 0 && Upsert(stored, e).history[|Upsert(stored, e).history| - 1] == e
  {
  }

  /** A missing or stale envelope is replaced by a fresh one holding only the new entry. */
  lemma UpsertStale(stored: Option<Envelope>, e: HistoryEntry)
    requires !Current(stored)
    ensures Upsert(stored, e) == Envelope(Version, [e])
  {
  }

  lemma UniqueTail(h: seq<HistoryEntry>)
    requires h != [] && UniqueUrls(h)
    ensures UniqueUrls(h[1..])
    ensures forall k :: 0 <= k < |h| - 1 ==> h[1..][k].url != h[0].url
  {
    var rest := h[1..];
    forall i, j | 0 <= i < j < |rest| ensures rest[i].url != rest[j].url {
      assert rest[i] == h[i + 1] && rest[j] == h[j + 1];
    }
  }

  /** With at most one entry per url, removing the first entry for url removes every entry
      for it and keeps the others in order. */
  lemma {:induction false} RemoveFirstOfUnique(h: seq<HistoryEntry>, url: Option<string>)
    requires UniqueUrls(h)
    ensures RemoveFirst(h, url) == Without(h, url)
  {
    if h != [] {
      var rest := h[1..];
      UniqueTail(h);
      if h[0].url == url {
        WithoutAbsent(rest, url);
      } else {
        RemoveFirstOfUnique(rest, url);
      }
    }
  }

  /** Removing a url that does not occur changes nothing. */
  lemma {:induction false} WithoutAbsent(h: seq<HistoryEntry>, url: Option<string>)
    requires forall k :: 0 <= k < |h| ==> h[k].url != url
    ensures Without(h, url) == h
  {
    if h != [] {
      WithoutAbsent(h[1..], url);
    }
  }

  /** Filtering keeps at most one entry per url. */
  lemma {:induction false} WithoutUnique(h: seq<HistoryEntry>, url: Option<string>)
    requires UniqueUrls(h)
    ensures UniqueUrls(Without(h, url))
  {
    if h != [] {
      UniqueTail(h);
      WithoutUnique(h[1..], url);
      if h[0].url != url {
        var r := Without(h[1..], url);
        forall k | 0 <= k < |r| ensures r[k].url != h[0].url {
          assert r[k] in h[1..];
        }
      }
    }
  }

  /** On a current envelope with one entry per url, the new history is the old one without
      the entry for e.url, in its order, followed by e. */
  lemma UpsertKeepsOthers(stored: Option<Envelope>, e: HistoryEntry)
    requires Current(stored) && UniqueUrls(stored.value.history)
    ensures Upsert(stored, e).history == Without(stored.value.history, e.url) + [e]
  {
    RemoveFirstOfUnique(stored.value.history, e.url);
  }

  /** Writing an entry keeps the history at one entry per url. */
  lemma UpsertUnique(stored: Option<Envelope>, e: HistoryEntry)
    requires Current(stored) ==> UniqueUrls(stored.value.history)
    ensures UniqueUrls(Upsert(stored, e).history)
  {
    if Current(stored) {
      var h := stored.value.history;
      RemoveFirstOfUnique(h, e.url);
      WithoutUnique(h, e.url);
    }
  }

  /** After a write, the first entry for e.url is the one just written, at the end. */
  lemma UpsertThenFind(stored: Option<Envelope>, e: HistoryEntry)
    requires Current(stored) ==> UniqueUrls(stored.value.history)
    ensures var h := Upsert(stored, e).history;
            FirstMatch(h, e.url) == Some(|h| - 1)
  {
    var h := Upsert(stored, e).history;
    UpsertUnique(stored, e);
    assert h[|h| - 1] == e;
  }

  /** Two writes for the same url leave exactly one entry for it: the later one. */
  lemma UpsertTwice(stored: Option<Envelope>, e1: HistoryEntry, e2: HistoryEntry)
    requires Current(stored) ==> UniqueUrls(stored.value.history)
    requires e1.url == e2.url
    ensures var h := Upsert(Some(Upsert(stored, e1)), e2).history;
            h[|h| - 1] == e2 && forall k :: 0 <= k < |h| - 1 ==> h[k].url != e2.url
  {
    UpsertUnique(stored, e1);
    UpsertEndsWithEntry(stored, e1);
    UpsertUnique(Some(Upsert(stored, e1)), e2);
  }
}
