/** The BrainBox session: configureBrainBox's reconciliation of the stored view history,
    the server's image information and the caller's requests; unload's write-back of the
    view history; and the annotation list operations with the table bindings they ask for.
    The drawing widget (AtlasMakerWidget), the table and the binding helpers are outside
    the model: the calls made into them are recorded, in order, in `effects`. */
module BrainBox {
  import opened Js
  import opened SessionStore
  import opened Annotations

  /** BrainBox.info as the server sends it. `success` is absent on success. */
  datatype ImageInfo = ImageInfo(
    success: Option<bool>,
    message: string,
    source: string,
    dim: seq<int>,
    pixdim: seq<real>,
    atlas: seq<Annotation>)

  /** AtlasMakerWidget.User.view and .slice. */
  datatype UserState = UserState(view: Option<string>, slice: Option<int>)

  /** The `param` object of configureBrainBox. `dim` and `pixdim` are filled in by it. */
  datatype ConfigParams = ConfigParams(
    info: ImageInfo,
    url: string,
    view: Option<string>,
    slice: Option<int>,
    fullscreen: Option<bool>,
    annotationItemIndex: Option<int>,
    dim: Option<seq<int>>,
    pixdim: Option<seq<real>>)

  /** The `param` object of the annotation table functions: the column descriptors. */
  datatype TableParams = TableParams(objTemplate: seq<Column>)

  /** A call made into the widget, the table or the binding helpers. */
  datatype Effect =
    | AppendRow                          // append param.trTemplate to the table
    | Bind(binding: Binding)             // bind1 or bind2
    | SelectRow(index: int)              // mark the clicked row as the only selected one
    | RemoveRow(index: int)              // remove `tbody tr:eq(index)`
    | Unbind(path: string)               // unbind2
    | ConfigureAtlasMaker(index: int)    // AtlasMakerWidget.configureAtlasMaker(BrainBox.info, index)
    | SendSaveMetadata(info: Option<ImageInfo>)  // AtlasMakerWidget.sendSaveMetadataMessage(BrainBox.info)
    | SetMessage(text: string)           // $("#msgLog").html(text)
    | AppendMessage(text: string)        // $("#msgLog").append(text)

  const DownloadingToServer: string := "<p>Downloading from source to server..."
  const DownloadingFromServer: string := "<p>Downloading from server..."

  /** The line shown in #msgLog when the server reports a failure. */
  function ErrorLine(message: string): string {
    "<p>ERROR: " + message + "."
  }

  /** How configureBrainBox ends: an exception thrown out of it, a rejected promise (which
      carries no value), or a promise that resolves, with no value, once the widget is
      configured. `Resolved` records the caller's `param` as the call leaves it, with `dim`
      and `pixdim` written in, and the annotation index passed to the widget. */
  datatype ConfigureOutcome = Thrown(error: string) | Rejected | Resolved(param: ConfigParams, index: int)

  const TypeError: string := "TypeError"

  /** The methods of the read-only promise that jQuery's `deferred.promise()` returns. */
  const PromiseMethods: set<string> := {"always", "catch", "done", "fail", "pipe", "progress", "promise", "state", "then"}

  /** The methods of a jQuery Deferred: the promise's, plus those that settle it. */
  const DeferredMethods: set<string> :=
    PromiseMethods + {"notify", "notifyWith", "reject", "rejectWith", "resolve", "resolveWith"}

  /** Calling method `name` on an object that has `methods`: `settled` when it has one,
      otherwise a TypeError, as for calling `undefined`. */
  function CallMethod(methods: set<string>, name: string, settled: ConfigureOutcome): ConfigureOutcome
  {
    if name in methods then settled else Thrown(TypeError)
  }

  /** Only the Deferred can be rejected: `def.promise().reject()` throws, `def.reject()`
      rejects. */
  lemma RejectOnlyOnDeferred()
    ensures CallMethod(PromiseMethods, "reject", Rejected) == Thrown(TypeError)
    ensures CallMethod(DeferredMethods, "reject", Rejected) == Rejected
  {
    assert "reject" in DeferredMethods;
  }

  function Binds(plan: seq<Binding>): seq<Effect> {
    seq(|plan|, k requires 0 <= k < |plan| => Bind(plan[k]))
  }

  /** Handling one more column appends that column's bind requests. */
  lemma BindsSnoc(t: seq<Column>, icol: nat, pathIndex: int, irow: int)
    requires icol < |t|
    ensures Binds(BindingPlan(t[..icol + 1], pathIndex, irow))
         == Binds(BindingPlan(t[..icol], pathIndex, irow)) + Binds(ColumnBinding(t[icol], icol, pathIndex, irow))
  {
    BindingPlanSnoc(t, icol, pathIndex, irow);
  }

  function Unbinds(paths: seq<string>): seq<Effect> {
    seq(|paths|, k requires 0 <= k < |paths| => Unbind(paths[k]))
  }

  // ---------------------------------------------------------------------------------------
  // Reconciliation

  /** The view and slice configureBrainBox leaves in the widget: the prior ones, replaced
      by the first history entry for param.url when the envelope is current; then a truthy
      requested view replaces the view and clears the slice; then a truthy requested slice
      replaces the slice. */
  function Reconcile(prior: UserState, stored: Option<Envelope>, param: ConfigParams): UserState {
    var remembered :=
      if Current(stored) then
        match FirstMatch(stored.value.history, Some(param.url))
        case Some(i) => UserState(Some(stored.value.history[i].view), Some(stored.value.history[i].slice))
        case None => prior
      else prior;
    var viewed := if TruthyString(param.view) then UserState(param.view, None) else remembered;
    if TruthyNumber(param.slice) then viewed.(slice := param.slice) else viewed
  }

  /** A requested view wins over history and prior state, and the slice is then the
      requested one or none (the widget picks the middle slice). */
  lemma ReconcileViewOverride(prior: UserState, stored: Option<Envelope>, param: ConfigParams)
    requires TruthyString(param.view)
    ensures Reconcile(prior, stored, param).view == param.view
    ensures Reconcile(prior, stored, param).slice == if TruthyNumber(param.slice) then param.slice else None
  {
  }

  /** A requested slice always wins. */
  lemma ReconcileSliceOverride(prior: UserState, stored: Option<Envelope>, param: ConfigParams)
    requires TruthyNumber(param.slice)
    ensures Reconcile(prior, stored, param).slice == param.slice
  {
  }

  /** Without a requested view, the first history entry for the url of a current envelope
      gives the view, and the slice unless a slice is requested. */
  lemma ReconcileRemembered(prior: UserState, stored: Option<Envelope>, param: ConfigParams, i: nat)
    requires Current(stored)
    requires i < |stored.value.history| && stored.value.history[i].url == Some(param.url)
    requires forall j :: 0 <= j < i ==> stored.value.history[j].url != Some(param.url)
    requires !TruthyString(param.view)
    ensures Reconcile(prior, stored, param).view == Some(stored.value.history[i].view)
    ensures Reconcile(prior, stored, param).slice
         == if TruthyNumber(param.slice) then param.slice else Some(stored.value.history[i].slice)
  {
  }

  /** With no usable history entry, what the caller does not request stays as it was. */
  lemma ReconcileKeepsPrior(prior: UserState, stored: Option<Envelope>, param: ConfigParams)
    requires !Current(stored) || forall j :: 0 <= j < |stored.value.history| ==> stored.value.history[j].url != Some(param.url)
    ensures !TruthyString(param.view) ==> Reconcile(prior, stored, param).view == prior.view
    ensures !TruthyString(param.view) && !TruthyNumber(param.slice) ==> Reconcile(prior, stored, param) == prior
  {
  }

  /** A stale envelope counts exactly as no envelope. */
  lemma ReconcileStaleIsAbsent(prior: UserState, stored: Option<Envelope>, param: ConfigParams)
    requires !Current(stored)
    ensures Reconcile(prior, stored, param) == Reconcile(prior, None, param)
  {
  }

  /** Reopening an image with no view or slice requested restores what unload saved for
      it: the lower-cased view (or "sag") and the slice (or 0). */
  lemma ReconcileRestoresUnload(prior: UserState, stored: Option<Envelope>, e: HistoryEntry, param: ConfigParams)
    requires Current(stored) ==> UniqueUrls(stored.value.history)
    requires e.url == Some(param.url) && !TruthyString(param.view) && !TruthyNumber(param.slice)
    ensures Reconcile(prior, Some(Upsert(stored, e)), param) == UserState(Some(e.view), Some(e.slice))
  {
    UpsertEndsWithEntry(stored, e);
    UpsertThenFind(stored, e);
  }

  /** Two worked cases: a stored `cor` view at slice 5 for "A" is overridden by a
      requested `sag` view, which clears the slice; a requested slice 9 alone keeps the
      stored view. */
  lemma ReconcileExamples(prior: UserState, info: ImageInfo)
    ensures var stored := Some(Envelope(Version, [HistoryEntry(Some("A"), "cor", 5, "")]));
      && Reconcile(prior, stored, ConfigParams(info, "A", Some("sag"), None, None, None, None, None))
         == UserState(Some("sag"), None)
      && Reconcile(prior, stored, ConfigParams(info, "A", None, Some(9), None, None, None, None))
         == UserState(Some("cor"), Some(9))
  {
    var h := [HistoryEntry(Some("A"), "cor", 5, "")];
    assert FirstMatch(h, Some("A")) == Some(0);
  }

  /** `BrainBox.info.source`: undefined while BrainBox.info is still `{}`. */
  function SourceOf(info: Option<ImageInfo>): (url: Option<string>)
    ensures url.Some? <==> info.Some?
  {
    match info
    case Some(i) => Some(i.source)
    case None => None
  }

  // ---------------------------------------------------------------------------------------
  // The session

  class Session {
    /** BrainBox.info; None while it is still the initial empty object. */
    var info: Option<ImageInfo>
    /** localStorage.AtlasMaker, parsed; None when the slot is empty. */
    var store: Option<Envelope>
    /** AtlasMakerWidget.User.view, .slice and .username. */
    var userView: Option<string>
    var userSlice: Option<int>
    var username: string
    /** AtlasMakerWidget.fullscreen and .editMode. */
    var fullscreen: bool
    var editMode: int
    /** The calls made so far into the widget, the table and the binding helpers. */
    var effects: seq<Effect>

    constructor (store: Option<Envelope>, user: UserState, username: string, fullscreen: bool, editMode: int)
      ensures this.info == None && this.store == store
      ensures userView == user.view && userSlice == user.slice && this.username == username
      ensures this.fullscreen == fullscreen && this.editMode == editMode
      ensures effects == []
    {
      info := None;
      this.store := store;
      userView, userSlice := user.view, user.slice;
      this.username := username;
      this.fullscreen, this.editMode := fullscreen, editMode;
      effects := [];
    }

    ghost function User(): UserState
      reads this
    {
      UserState(userView, userSlice)
    }

    /** configureBrainBox, as written. A server reply flagged `success: false` is logged
        and then `def.promise().reject()` is called; the read-only promise has no
        `reject`, so a TypeError is thrown and nothing else changes. Otherwise the reply is
        installed as Install describes. */
    method Configure(param: ConfigParams) returns (outcome: ConfigureOutcome)
      modifies this
      ensures store == old(store) && username == old(username)
      ensures param.info.success == Some(false) ==>
        && outcome == Thrown(TypeError)
        && info == old(info) && User() == old(User())
        && fullscreen == old(fullscreen) && editMode == old(editMode)
        && effects == old(effects) + [SetMessage(DownloadingToServer), AppendMessage(ErrorLine(param.info.message))]
      ensures param.info.success != Some(false) ==> Installed(param, [SetMessage(DownloadingToServer)], outcome)
    {
      var data := param.info;
      var index := if TruthyNumber(param.annotationItemIndex) then param.annotationItemIndex.value else 0;
      OrZeroIsGetOr(param.annotationItemIndex);
      effects := effects + [SetMessage(DownloadingToServer)];
      if data.success == Some(false) {
        effects := effects + [AppendMessage(ErrorLine(data.message))];
        return CallMethod(PromiseMethods, "reject", Rejected);
      }
      outcome := Install(param, index);
    }

    /** configureBrainBox as evidently intended: on a failure flag the Deferred itself is
        rejected (`def.reject(); return def.promise();`), so the caller's failure handlers
        run; state is left as it was. */
    method ConfigureRejecting(param: ConfigParams) returns (outcome: ConfigureOutcome)
      modifies this
      ensures store == old(store) && username == old(username)
      ensures param.info.success == Some(false) ==>
        && outcome == Rejected
        && info == old(info) && User() == old(User())
        && fullscreen == old(fullscreen) && editMode == old(editMode)
        && effects == old(effects) + [SetMessage(DownloadingToServer), AppendMessage(ErrorLine(param.info.message))]
      ensures param.info.success != Some(false) ==> Installed(param, [SetMessage(DownloadingToServer)], outcome)
    {
      var data := param.info;
      var index := if TruthyNumber(param.annotationItemIndex) then param.annotationItemIndex.value else 0;
      OrZeroIsGetOr(param.annotationItemIndex);
      effects := effects + [SetMessage(DownloadingToServer)];
      if data.success == Some(false) {
        effects := effects + [AppendMessage(ErrorLine(data.message))];
        return CallMethod(DeferredMethods, "reject", Rejected);
      }
      outcome := Install(param, index);
    }

    /** The state a successful configureBrainBox leaves, against the state before it, when
        the calls in `before` were made ahead of installing the reply. */
    twostate predicate Installed(param: ConfigParams, before: seq<Effect>, outcome: ConfigureOutcome)
      reads this
    {
      && store == old(store) && username == old(username)
      && info == Some(param.info)
      && User() == Reconcile(old(User()), store, param)
      && fullscreen == TruthyBool(param.fullscreen)
      && editMode == 1
      && effects == old(effects) + before + [AppendMessage(DownloadingFromServer),
                                    ConfigureAtlasMaker(param.annotationItemIndex.GetOr(0))]
      && outcome == Resolved(param.(dim := Some(param.info.dim), pixdim := Some(param.info.pixdim)),
                             param.annotationItemIndex.GetOr(0))
    }

    /** The success path of configureBrainBox: the reply becomes BrainBox.info, `param`
        receives the image's dim and pixdim, the view and slice are reconciled, fullscreen
        is the requested one or false, the widget is put in edit mode and configured on
        annotation `index`. */
    method Install(param: ConfigParams, index: int) returns (outcome: ConfigureOutcome)
      requires index == param.annotationItemIndex.GetOr(0)
      modifies this
      ensures Installed(param, [], outcome)
    {
      var data := param.info;
      info := Some(data);
      effects := effects + [AppendMessage(DownloadingFromServer)];
      var updated := param.(dim := Some(data.dim), pixdim := Some(data.pixdim));

      if store.Some? {
        var stored := store.value;
        if stored.version != 0 && stored.version == Version {
          var i := 0;
          while i < |stored.history|
            invariant 0 <= i <= |stored.history|
            invariant forall j :: 0 <= j < i ==> stored.history[j].url != Some(param.url)
            invariant userView == old(userView) && userSlice == old(userSlice)
          {
            if stored.history[i].url == Some(param.url) {
              userView := Some(stored.history[i].view);
              userSlice := Some(stored.history[i].slice);
              break;
            }
            i := i + 1;
          }
        }
      }

      if TruthyString(param.view) {
        userView := param.view;
        userSlice := None;
      }
      if TruthyNumber(param.slice) {
        userSlice := param.slice;
      }
      fullscreen := TruthyBool(param.fullscreen);
      editMode := 1;
      effects := effects + [ConfigureAtlasMaker(index)];
      outcome := Resolved(updated, index);
    }

    /** unload: writes the widget's view and slice for the current image into the stored
        history, replacing any earlier entry for it. Before configureBrainBox has set
        BrainBox.info, `info.source` is undefined and the entry has no url. */
    method Unload(now: string)
      modifies this`store
      ensures store == Some(Upsert(old(store), NewEntry(SourceOf(info), userView, userSlice, now)))
    {
      var source := SourceOf(info);
      var foundStored := false;
      var stored := Envelope(Version, []);
      if store.Some? {
        stored := store.value;
        if stored.version != 0 && stored.version == Version {
          foundStored := true;
          var history := stored.history;
          ghost var removed := false;
          var i := 0;
          while i < |history|
            invariant 0 <= i <= |history|
            invariant history == stored.history
            invariant forall j :: 0 <= j < i ==> history[j].url != source
          {
            if history[i].url == source {
              RemoveFirstAt(history, source, i);
              history := history[..i] + history[i + 1..];
              removed := true;
              break;
            }
            i := i + 1;
          }
          if !removed {
            RemoveFirstAbsent(history, source);
          }
          assert history == RemoveFirst(store.value.history, source);
          stored := stored.(history := history);
        }
      }
      if !foundStored {
        stored := Envelope(Version, []);
      }
      var entry := NewEntry(source, userView, userSlice, now);
      stored := stored.(history := stored.history + [entry]);
      assert stored == Upsert(store, entry);
      store := Some(stored);
    }

    /** selectAnnotationTableRow: a click on row `index` while row `currentIndex` is
        selected (-1: none) selects it and shows its annotation, unless the index is
        negative or already selected. */
    method SelectAnnotationTableRow(index: int, currentIndex: int)
      modifies this`effects
      ensures index >= 0 && currentIndex != index ==>
        effects == old(effects) + [SelectRow(index), ConfigureAtlasMaker(index)]
      ensures index < 0 || currentIndex == index ==> effects == old(effects)
    {
      if index >= 0 && currentIndex != index {
        effects := effects + [SelectRow(index), ConfigureAtlasMaker(index)];
      }
    }

    /** The body shared by appendAnnotationTableRow and appendAnnotationTableRow2: append
        a row, then bind each column's path at record index pathIndex to table row
        irow + 1. */
    method AppendBoundRow(irow: int, pathIndex: int, param: TableParams)
      modifies this`effects
      ensures effects == old(effects) + [AppendRow] + Binds(BindingPlan(param.objTemplate, pathIndex, irow))
    {
      effects := effects + [AppendRow];
      ghost var start := effects;
      var t := param.objTemplate;
      for icol := 0 to |t|
        invariant effects == start + Binds(BindingPlan(t[..icol], pathIndex, irow))
      {
        ghost var prefix := effects;
        ghost var added := ColumnBinding(t[icol], icol, pathIndex, irow);
        BindsSnoc(t, icol, pathIndex, irow);
        var path := ReplaceFirst(t[icol].path, '#', IntToString(pathIndex));
        if t[icol].typeOfBinding == 1 {
          effects := effects + [Bind(Binding(OneWay, path, irow + 1, icol))];
          assert Binds(added) == [Bind(Binding(OneWay, path, irow + 1, icol))];
        } else if t[icol].typeOfBinding == 2 {
          effects := effects + [Bind(Binding(TwoWay, path, irow + 1, icol))];
          assert Binds(added) == [Bind(Binding(TwoWay, path, irow + 1, icol))];
        } else {
          assert Binds(added) == [];
        }
        assert effects == prefix + Binds(added);
      }
      assert t[..|t|] == t;
    }

    /** appendAnnotationTableRow: the record index is also the row index. */
    method AppendAnnotationTableRow(irow: int, param: TableParams)
      modifies this`effects
      ensures effects == old(effects) + [AppendRow] + Binds(BindingPlan(param.objTemplate, irow, irow))
    {
      AppendBoundRow(irow, irow, param);
    }

    /** appendAnnotationTableRow2: paths use the record index iarr, cells the row irow. */
    method AppendAnnotationTableRow2(irow: int, iarr: int, param: TableParams)
      modifies this`effects
      ensures effects == old(effects) + [AppendRow] + Binds(BindingPlan(param.objTemplate, iarr, irow))
    {
      AppendBoundRow(irow, iarr, param);
    }

    /** saveAnnotations: send BrainBox.info to the server through the widget. */
    method SaveAnnotations(param: TableParams)
      modifies this`effects
      ensures effects == old(effects) + [SendSaveMetadata(info)]
    {
      effects := effects + [SendSaveMetadata(info)];
    }

    /** addAnnotation: append a fresh record owned by the current user, bind a new table
        row to it at index length-1, and save. */
    method AddAnnotation(param: TableParams, date: string, stem: string)
      requires info.Some?
      modifies this`info, this`effects
      ensures info == Some(old(info.value).(atlas := old(info.value.atlas) + [NewAnnotation(date, stem, username)]))
      ensures var i := |old(info.value.atlas)|;
        effects == old(effects) + [AppendRow] + Binds(BindingPlan(param.objTemplate, i, i))
                   + [SendSaveMetadata(info)]
    {
      var record := NewAnnotation(date, stem, username);
      info := Some(info.value.(atlas := info.value.atlas + [record]));
      var i := |info.value.atlas| - 1;
      AppendAnnotationTableRow(i, param);
      SaveAnnotations(param);
    }

    /** removeAnnotation: remove the selected table row (index -1 when none is selected),
        unbind every column's path at the LAST record index, splice the record at `index`
        out of the atlas with Array.prototype.splice semantics, and save. */
    method RemoveAnnotation(param: TableParams, index: int)
      requires info.Some?
      modifies this`info, this`effects
      ensures info == Some(old(info.value).(atlas := SpliceOne(old(info.value.atlas), index)))
      ensures effects == old(effects) + [RemoveRow(index)]
                         + Unbinds(UnbindPaths(param.objTemplate, |old(info.value.atlas)| - 1))
                         + [SendSaveMetadata(info)]
    {
      effects := effects + [RemoveRow(index)];
      var irow := |info.value.atlas| - 1;
      ghost var start := effects;
      var t := param.objTemplate;
      for icol := 0 to |t|
        invariant effects == start + Unbinds(UnbindPaths(t[..icol], irow))
        invariant info == old(info)
      {
        UnbindPathsSnoc(t, icol, irow);
        effects := effects + [Unbind(ReplaceFirst(t[icol].path, '#', IntToString(irow)))];
      }
      assert t[..|t|] == t;
      info := Some(info.value.(atlas := SpliceOne(info.value.atlas, index)));
      SaveAnnotations(param);
    }
  }
}
