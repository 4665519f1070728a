/** The settings page of one website (`src/pages/dashboard/WebsiteSettings.tsx`):
    loading the site into the form, the update payload, the save and the
    confirmed delete. */
module WebsiteSettings {
  import opened Wrappers
  import opened SubdomainField
  import Utils

  datatype Status = Draft | Published | Archived

  /** The stored website, as far as this page reads it. */
  datatype Website = Website(siteName: string, subdomain: string, businessSector: Option<string>,
                             metaTitle: Option<string>, metaDescription: Option<string>, status: Status)

  /** The form's fields; the optional ones are `""` when empty. */
  datatype Fields = Fields(siteName: string, subdomain: string, businessSector: string,
                           metaTitle: string, metaDescription: string, status: Status)

  /** What `updateWebsite` receives; `None` is a field sent as `undefined`. */
  datatype UpdatePayload = UpdatePayload(siteName: string, subdomain: string, businessSector: Option<string>,
                                         metaTitle: Option<string>, metaDescription: Option<string>, status: Status)

  const LoadFailedMessage := "Web sitesi bilgileri y\U{FC}klenemedi."
  const SavedMessage := "\U{2705} De\U{11F}i\U{15F}iklikler ba\U{15F}ar\U{131}yla kaydedildi!"
  const SaveFailedMessage := "De\U{11F}i\U{15F}iklikler kaydedilirken bir hata olu\U{15F}tu."
  const DeleteFailedMessage := "Web sitesi silinirken bir hata olu\U{15F}tu."

  /** The page's state. */
  datatype Settings = Settings(id: Option<string>, loading: bool, saving: bool, deleting: bool,
                               website: Option<Website>, error: Option<string>, success: Option<string>,
                               fields: Fields)

  /** Filling the form from a loaded site: absent or empty optional fields
      show as empty. */
  function Populate(w: Website): (f: Fields)
    ensures f.siteName == w.siteName && f.subdomain == w.subdomain && f.status == w.status
    ensures f.businessSector == OrElse(w.businessSector, "")
    ensures f.metaTitle == OrElse(w.metaTitle, "") && f.metaDescription == OrElse(w.metaDescription, "")
  {
    Fields(w.siteName, w.subdomain, OrElse(w.businessSector, ""), OrElse(w.metaTitle, ""),
           OrElse(w.metaDescription, ""), w.status)
  }

  /** `loadWebsite`: the site and its fields on success, the message (or the
      default) on failure; loading ends either way. */
  function Load(s: Settings, reply: Result<Website>): (r: Settings)
    ensures !r.loading
    ensures reply.Success? ==> r.website == Some(reply.value) && r.fields == Populate(reply.value)
                               && r.error.None?
    ensures reply.Failure? ==>
      r.error == Some(OrElse(Some(reply.error), LoadFailedMessage)) && r.website == s.website && r.fields == s.fields
  {
    match reply
    case Success(w) => s.(loading := false, error := None, website := Some(w), fields := Populate(w))
    case Failure(e) => s.(loading := false, error := Some(OrElse(Some(e), LoadFailedMessage)))
  }

  /** The update sent on save: the three optional fields go as `undefined`
      when empty; name, subdomain and status are sent as they are. */
  function PayloadOf(f: Fields): (p: UpdatePayload)
    ensures p.siteName == f.siteName && p.subdomain == f.subdomain && p.status == f.status
    ensures p.businessSector.None? <==> f.businessSector == ""
    ensures p.metaTitle.None? <==> f.metaTitle == ""
    ensures p.metaDescription.None? <==> f.metaDescription == ""
    ensures p.businessSector.Some? ==> p.businessSector.value == f.businessSector
    ensures p.metaTitle.Some? ==> p.metaTitle.value == f.metaTitle
    ensures p.metaDescription.Some? ==> p.metaDescription.value == f.metaDescription
  {
    UpdatePayload(f.siteName, f.subdomain, NonEmpty(f.businessSector), NonEmpty(f.metaTitle),
                  NonEmpty(f.metaDescription), f.status)
  }

  /** The stored form of an optional field: an empty value is not stored. */
  function Normal(o: Option<string>): (r: Option<string>)
    ensures r.None? <==> !Truthy(o)
    ensures r.Some? ==> r == o
  {
    if Truthy(o) then o else None
  }

  /** Saving an unchanged form writes back what was loaded, with empty
      optional values dropped. */
  lemma SaveUnchangedRoundTrip(w: Website)
    ensures PayloadOf(Populate(w)) ==
      UpdatePayload(w.siteName, w.subdomain, Normal(w.businessSector), Normal(w.metaTitle),
                    Normal(w.metaDescription), w.status)
  {
  }

  /** The save button's disabled state: an enabled button never sends an
      empty name or subdomain. */
  predicate SaveDisabled(s: Settings): (disabled: bool)
    ensures !disabled ==> !s.saving && PayloadOf(s.fields).siteName != "" && PayloadOf(s.fields).subdomain != ""
  {
    s.saving || s.fields.siteName == "" || s.fields.subdomain == ""
  }

  /** The subdomain input keeps only `[a-z0-9-]`, lower-cased. */
  function EditSubdomain(s: Settings, typed: string): (r: Settings)
    ensures r.fields.subdomain == KeepLabelChars(typed)
    ensures r == s.(fields := r.fields) && r.fields == s.fields.(subdomain := r.fields.subdomain)
  {
    s.(fields := s.fields.(subdomain := KeepLabelChars(typed)))
  }

  /** Whatever is typed, the subdomain that is saved holds only label
      characters. */
  lemma SavedSubdomainClean(s: Settings, typed: string)
    ensures var p := PayloadOf(EditSubdomain(s, typed).fields);
      forall i :: 0 <= i < |p.subdomain| ==> Utils.IsLabelChar(p.subdomain[i])
  {
  }

  /** The effect of a save: the update sent (if any) and the state after it. */
  datatype UpdateCall = UpdateCall(id: string, payload: UpdatePayload)

  datatype SaveEffect = SaveEffect(call: Option<UpdateCall>, state: Settings)

  /** `handleSave`: nothing without a loaded site and an id; otherwise the
      payload is sent; success shows the confirmation and reloads the site,
      failure shows the message or the default; saving ends either way. */
  function Save(s: Settings, update: UpdateCall -> Result<()>, reload: Result<Website>): (r: SaveEffect)
    ensures r.call.None? <==> s.website.None? || !Truthy(s.id)
    ensures r.call.None? ==> r.state == s
    ensures r.call.Some? ==> r.call.value == UpdateCall(s.id.value, PayloadOf(s.fields)) && !r.state.saving
    ensures r.call.Some? && update(r.call.value).Success? ==>
      r.state.success == Some(SavedMessage) && r.state == Load(s.(error := None, success := Some(SavedMessage), saving := false), reload)
    ensures r.call.Some? && update(r.call.value).Failure? ==>
      r.state.success.None? && r.state.error == Some(OrElse(Some(update(r.call.value).error), SaveFailedMessage))
      && r.state.fields == s.fields && r.state.website == s.website
  {
    if s.website.None? || !Truthy(s.id) then SaveEffect(None, s)
    else
      var call := UpdateCall(s.id.value, PayloadOf(s.fields));
      var started := s.(error := None, success := None);
      match update(call)
      case Success(_) =>
        SaveEffect(Some(call), Load(started.(success := Some(SavedMessage), saving := false), reload))
      case Failure(e) =>
        SaveEffect(Some(call), started.(error := Some(OrElse(Some(e), SaveFailedMessage)), saving := false))
  }

  /** One optional column after an update: a value sent replaces it; a field
      sent as `undefined` is dropped from the request body, so the column
      keeps what it held. */
  function Patch(sent: Option<string>, held: Option<string>): (r: Option<string>)
    ensures sent.Some? ==> r == sent
    ensures sent.None? ==> r == held
  {
    if sent.Some? then sent else held
  }

  /** The site as stored after an update of `before` with payload `p`: name,
      subdomain and status are replaced, and each optional column is patched. */
  function Stored(before: Website, p: UpdatePayload): (w: Website)
    ensures w.siteName == p.siteName && w.subdomain == p.subdomain && w.status == p.status
    ensures w.businessSector == Patch(p.businessSector, before.businessSector)
    ensures w.metaTitle == Patch(p.metaTitle, before.metaTitle)
    ensures w.metaDescription == Patch(p.metaDescription, before.metaDescription)
  {
    Website(p.siteName, p.subdomain, Patch(p.businessSector, before.businessSector),
            Patch(p.metaTitle, before.metaTitle), Patch(p.metaDescription, before.metaDescription), p.status)
  }

  /** No optional field was emptied in the form while the loaded site held a
      value for it. */
  predicate NothingCleared(w: Website, f: Fields) {
    && (f.businessSector != "" || !Truthy(w.businessSector))
    && (f.metaTitle != "" || !Truthy(w.metaTitle))
    && (f.metaDescription != "" || !Truthy(w.metaDescription))
  }

  /** A successful save followed by a reload that returns what was stored
      shows the confirmation and no error; when no optional field was
      emptied, the form comes back exactly as it was saved; the button is
      enabled again whenever name and subdomain are filled. */
  lemma SaveReloadShowsForm(s: Settings, update: UpdateCall -> Result<()>)
    requires s.website.Some? && Truthy(s.id)
    requires update(UpdateCall(s.id.value, PayloadOf(s.fields))).Success?
    ensures var w := Stored(s.website.value, PayloadOf(s.fields));
      var r := Save(s, update, Success(w)).state;
      && r.website == Some(w)
      && r.success == Some(SavedMessage) && r.error.None?
      && (NothingCleared(s.website.value, s.fields) ==> r.fields == s.fields)
      && (SaveDisabled(r) <==> s.fields.siteName == "" || s.fields.subdomain == "")
  {
    var w := Stored(s.website.value, PayloadOf(s.fields));
    if NothingCleared(s.website.value, s.fields) {
      assert Populate(w) == s.fields;
    }
  }

  /** An optional field emptied in the form is sent as `undefined`, so the
      column keeps its value and the reload shows it again: a set business
      sector, meta title or meta description cannot be cleared. */
  lemma ClearedFieldReturns(s: Settings, update: UpdateCall -> Result<()>)
    requires s.website.Some? && Truthy(s.id)
    requires update(UpdateCall(s.id.value, PayloadOf(s.fields))).Success?
    ensures var before := s.website.value;
      var r := Save(s, update, Success(Stored(before, PayloadOf(s.fields)))).state;
      && (s.fields.businessSector == "" && Truthy(before.businessSector) ==>
            r.fields.businessSector == before.businessSector.value != "")
      && (s.fields.metaTitle == "" && Truthy(before.metaTitle) ==>
            r.fields.metaTitle == before.metaTitle.value != "")
      && (s.fields.metaDescription == "" && Truthy(before.metaDescription) ==>
            r.fields.metaDescription == before.metaDescription.value != "")
  {
  }

  /** A failed save keeps the form, so the button stays as it was apart from
      the saving flag. */
  lemma FailedSaveKeepsForm(s: Settings, update: UpdateCall -> Result<()>, reload: Result<Website>)
    requires s.website.Some? && Truthy(s.id)
    requires update(UpdateCall(s.id.value, PayloadOf(s.fields))).Failure?
    ensures var r := Save(s, update, reload).state;
      r.fields == s.fields && (SaveDisabled(r) <==> SaveDisabled(s.(saving := false)))
  {
  }

  /** The effect of a delete: the deletion requested (if any), whether the
      page left for the dashboard, and the state. */
  datatype DeleteEffect = DeleteEffect(call: Option<string>, toDashboard: bool, state: Settings)

  /** `handleDelete`: only with a loaded site, an id and the user's
      confirmation; success leaves for the dashboard; failure shows the
      message and ends deleting. */
  function Delete(s: Settings, confirmed: bool, delete: string -> Result<()>): (r: DeleteEffect)
    ensures r.call.Some? <==> s.website.Some? && Truthy(s.id) && confirmed
    ensures r.call.None? ==> r.state == s && !r.toDashboard
    ensures r.call.Some? ==> r.call.value == s.id.value
    ensures r.toDashboard <==> r.call.Some? && delete(r.call.value).Success?
    ensures r.call.Some? && delete(r.call.value).Failure? ==>
      r.state == s.(error := Some(DeleteFailedMessage), deleting := false)
  {
    if s.website.None? || !Truthy(s.id) || !confirmed then DeleteEffect(None, false, s)
    else
      match delete(s.id.value)
      case Success(_) => DeleteEffect(Some(s.id.value), true, s.(deleting := true))
      case Failure(_) => DeleteEffect(Some(s.id.value), false, s.(error := Some(DeleteFailedMessage), deleting := false))
  }

  /** Declining the confirmation never deletes, whatever the service would do. */
  lemma DeclinedNeverDeletes(s: Settings, delete: string -> Result<()>)
    ensures Delete(s, false, delete) == DeleteEffect(None, false, s)
  {
  }
}
