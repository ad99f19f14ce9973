/** The settings screen's state holder: editing the Supabase url and key,
    saving them, and testing a connection. Saving and testing run in
    coroutines; each is a begin step and a completion step that takes the
    outcome of the foreign call. The preference store is a map from keys to
    strings. */
module Settings {
  import opened Wrappers
  import opened KotlinStd

  datatype SettingsUiState = SettingsUiState(
    supabaseUrl: string := "",
    supabaseKey: string := "",
    isSaving: bool := false,
    isTesting: bool := false,
    saveSuccess: bool := false,
    testSuccess: Option<bool> := None,
    errorMessage: Option<string> := None)

  const UrlPreference: string := "supabase_url"
  const KeyPreference: string := "supabase_key"

  const MissingCredentialsMessage: string := "Please enter both URL and Key"
  const SaveFailedMessage: string := "Failed to save settings"
  const ConnectionFailedMessage: string := "Connection failed"

  /** `supabaseConfig`: the stored url and key, `""` for a missing one. */
  function ReadConfig(prefs: map<string, string>): (config: (string, string))
    ensures UrlPreference !in prefs ==> config.0 == ""
    ensures KeyPreference !in prefs ==> config.1 == ""
    ensures UrlPreference in prefs ==> config.0 == prefs[UrlPreference]
    ensures KeyPreference in prefs ==> config.1 == prefs[KeyPreference]
  {
    (if UrlPreference in prefs then prefs[UrlPreference] else "",
     if KeyPreference in prefs then prefs[KeyPreference] else "")
  }

  /** `saveSupabaseConfig(url, key)`: both entries written, others kept. */
  function SaveConfig(prefs: map<string, string>, url: string, key: string): (r: map<string, string>)
    ensures r.Keys == prefs.Keys + {UrlPreference, KeyPreference}
    ensures r[UrlPreference] == url && r[KeyPreference] == key
    ensures forall k :: k in prefs && k != UrlPreference && k != KeyPreference ==> r[k] == prefs[k]
  {
    prefs[UrlPreference := url][KeyPreference := key]
  }

  /** What was saved is what is read back. */
  lemma ReadAfterSave(prefs: map<string, string>, url: string, key: string)
    ensures ReadConfig(SaveConfig(prefs, url, key)) == (url, key)
  {
  }

  /** Saving what was read changes what is read by nothing. */
  lemma SaveWhatWasRead(prefs: map<string, string>)
    ensures ReadConfig(SaveConfig(prefs, ReadConfig(prefs).0, ReadConfig(prefs).1)) == ReadConfig(prefs)
  {
    ReadAfterSave(prefs, ReadConfig(prefs).0, ReadConfig(prefs).1);
  }

  class SettingsViewModel {
    var state: SettingsUiState

    /** A connection test in flight has no verdict yet. */
    ghost predicate Valid()
      reads this
    {
      state.isTesting ==> state.testSuccess.None?
    }

    /** A new view model, before `init`'s `loadSettings` has run. */
    constructor ()
      ensures Valid() && state == SettingsUiState()
    {
      state := SettingsUiState();
    }

    /** The coroutine of `loadSettings`, given the store: the fields show the
        stored url and key. */
    method LoadSettings(prefs: map<string, string>)
      requires Valid()
      modifies this
      ensures Valid()
      ensures state == old(state).(supabaseUrl := ReadConfig(prefs).0, supabaseKey := ReadConfig(prefs).1)
    {
      var config := ReadConfig(prefs);
      state := state.(supabaseUrl := config.0, supabaseKey := config.1);
    }

    /** `updateSupabaseUrl`: the new text, and every verdict of an earlier
        save or test cleared. */
    method UpdateSupabaseUrl(url: string)
      requires Valid()
      modifies this
      ensures Valid()
      ensures state == old(state).(supabaseUrl := url, saveSuccess := false, testSuccess := None, errorMessage := None)
    {
      state := state.(supabaseUrl := url, saveSuccess := false, testSuccess := None, errorMessage := None);
    }

    /** `updateSupabaseKey`: the same for the key. */
    method UpdateSupabaseKey(key: string)
      requires Valid()
      modifies this
      ensures Valid()
      ensures state == old(state).(supabaseKey := key, saveSuccess := false, testSuccess := None, errorMessage := None)
    {
      state := state.(supabaseKey := key, saveSuccess := false, testSuccess := None, errorMessage := None);
    }

    /** `saveSettings`, up to the store call: the saving flag is raised, the
        error cleared, and the trimmed url and key are what will be stored.
        The fields keep the untrimmed text. */
    method SaveSettingsBegin() returns (url: string, key: string)
      requires Valid()
      modifies this
      ensures Valid()
      ensures state == old(state).(isSaving := true, errorMessage := None)
      ensures url == Trim(old(state).supabaseUrl) && key == Trim(old(state).supabaseKey)
    {
      state := state.(isSaving := true, errorMessage := None);
      url := Trim(state.supabaseUrl);
      key := Trim(state.supabaseKey);
    }

    /** The end of `saveSettings`, given the store, the values from the begin
        step and how the write went: on success the store holds them and the
        save is reported; on failure the store is as it was and the error is
        the exception's message or a fallback (`saveSuccess` is left alone). */
    method SaveSettingsComplete(prefs: map<string, string>, url: string, key: string, outcome: Outcome<()>)
      returns (stored: map<string, string>)
      requires Valid()
      modifies this
      ensures Valid()
      ensures outcome.Success? ==>
        stored == SaveConfig(prefs, url, key) && state == old(state).(isSaving := false, saveSuccess := true)
      ensures outcome.Failure? ==>
        && stored == prefs
        && state == old(state).(isSaving := false, errorMessage := Some(outcome.message.GetOr(SaveFailedMessage)))
    {
      match outcome
      case Success(_) =>
        stored := SaveConfig(prefs, url, key);
        state := state.(isSaving := false, saveSuccess := true);
      case Failure(message) =>
        stored := prefs;
        state := state.(isSaving := false, errorMessage := Some(message.GetOr(SaveFailedMessage)));
    }

    /** `testConnection`, up to the repository call. If the trimmed url or key
        is blank, only the error is set and no test is issued (`test` is
        `None`). Otherwise the testing flag is raised, the error and the
        previous verdict cleared, and the trimmed credentials are returned for
        the connection test; the fields keep the untrimmed text. */
    method TestConnectionBegin() returns (test: Option<(string, string)>)
      requires Valid()
      modifies this
      ensures Valid()
      ensures var url := Trim(old(state).supabaseUrl);
        var key := Trim(old(state).supabaseKey);
        if IsBlank(url) || IsBlank(key) then
          test == None && state == old(state).(errorMessage := Some(MissingCredentialsMessage))
        else
          test == Some((url, key)) &&
          state == old(state).(isTesting := true, errorMessage := None, testSuccess := None)
    {
      var url := Trim(state.supabaseUrl);
      var key := Trim(state.supabaseKey);
      if IsBlank(url) || IsBlank(key) {
        state := state.(errorMessage := Some(MissingCredentialsMessage));
        return None;
      }
      state := state.(isTesting := true, errorMessage := None, testSuccess := None);
      return Some((url, key));
    }

    /** The end of `testConnection`, given the repository's result: the
        verdict, and on failure the exception's message or a fallback. */
    method TestConnectionComplete(result: Outcome<bool>)
      requires Valid()
      modifies this
      ensures Valid()
      ensures result.Success? ==> state == old(state).(isTesting := false, testSuccess := Some(true))
      ensures result.Failure? ==> state == old(state).(
        isTesting := false, testSuccess := Some(false),
        errorMessage := Some(result.message.GetOr(ConnectionFailedMessage)))
    {
      match result
      case Success(_) =>
        state := state.(isTesting := false, testSuccess := Some(true));
      case Failure(message) =>
        state := state.(isTesting := false, testSuccess := Some(false), errorMessage := Some(message.GetOr(ConnectionFailedMessage)));
    }

    /** `clearError`. */
    method ClearError()
      requires Valid()
      modifies this
      ensures Valid()
      ensures state == old(state).(errorMessage := None)
    {
      state := state.(errorMessage := None);
    }

    /** `clearSuccessStates`: both verdicts back to "none yet". */
    method ClearSuccessStates()
      requires Valid()
      modifies this
      ensures Valid()
      ensures state == old(state).(saveSuccess := false, testSuccess := None)
    {
      state := state.(saveSuccess := false, testSuccess := None);
    }
  }

  /** The credentials a test or a save uses are the trimmed field contents,
      and a blank trimmed value is exactly a blank field. */
  lemma TrimmedBlankIffFieldBlank(field: string)
    ensures IsBlank(Trim(field)) <==> IsBlank(field)
  {
    TrimPreservesBlankness(field);
  }

  /** Saving and reloading settings shows the trimmed text: a round trip
      through the store. */
  method SaveThenReload(url: string, key: string, prefs: map<string, string>)
      returns (shownUrl: string, shownKey: string)
    ensures shownUrl == Trim(url) && shownKey == Trim(key)
  {
    var vm := new SettingsViewModel();
    vm.UpdateSupabaseUrl(url);
    vm.UpdateSupabaseKey(key);
    var u, k := vm.SaveSettingsBegin();
    var stored := vm.SaveSettingsComplete(prefs, u, k, Success(()));
    var reopened := new SettingsViewModel();
    reopened.LoadSettings(stored);
    ReadAfterSave(prefs, u, k);
    shownUrl, shownKey := reopened.state.supabaseUrl, reopened.state.supabaseKey;
  }
}
