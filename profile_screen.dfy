/**
 * The profile screen's settings: the dark-mode switch, the interface
 * language (stored upper-case, shown to the selector lower-case) and the
 * list of notification settings, each switched on or off by id.
 */
module ProfileScreen {
  import opened Text

  datatype NotificationSetting = NotificationSetting(id: string, title: string, description: string, enabled: bool)

  /** The settings the screen starts with. */
  const InitialSettings: seq<NotificationSetting> := [
    NotificationSetting("push", "Notifications push", "Recevoir des notifications sur votre appareil", true),
    NotificationSetting("email", "Notifications par email", "Recevoir des notifications par email", true),
    NotificationSetting("sms", "Notifications par SMS", "Recevoir des notifications par SMS", false),
    NotificationSetting("events", "Événements", "Notifications pour les événements à venir", true),
    NotificationSetting("media", "Nouveaux médias", "Notifications pour les nouveaux médias", true)
  ]

  /**
   * The settings after `handleNotificationToggle(id)`: `enabled` is flipped on
   * the settings with that id, and every other field and setting is kept.
   */
  function ToggleSetting(settings: seq<NotificationSetting>, id: string): (r: seq<NotificationSetting>)
    ensures |r| == |settings|
    ensures forall i :: 0 <= i < |settings| ==>
      && r[i].(enabled := settings[i].enabled) == settings[i]
      && (r[i].enabled == settings[i].enabled <==> settings[i].id != id)
  {
    seq(|settings|, i requires 0 <= i < |settings| =>
      if settings[i].id == id then settings[i].(enabled := !settings[i].enabled) else settings[i])
  }

  /** Toggling the same setting twice restores the list. */
  lemma ToggleSettingTwice(settings: seq<NotificationSetting>, id: string)
    ensures ToggleSetting(ToggleSetting(settings, id), id) == settings
  {
  }

  /** An id that no setting has leaves the list as it is. */
  lemma ToggleUnknownSetting(settings: seq<NotificationSetting>, id: string)
    requires forall i :: 0 <= i < |settings| ==> settings[i].id != id
    ensures ToggleSetting(settings, id) == settings
  {
  }

  /** Toggles of different settings commute. */
  lemma ToggleSettingsCommute(settings: seq<NotificationSetting>, a: string, b: string)
    ensures ToggleSetting(ToggleSetting(settings, a), b) == ToggleSetting(ToggleSetting(settings, b), a)
  {
  }

  /** The ids of the initial settings are pairwise distinct, so a toggle changes exactly one of them. */
  lemma InitialSettingsDistinct()
    ensures forall i, j :: 0 <= i < j < |InitialSettings| ==> InitialSettings[i].id != InitialSettings[j].id
  {
  }

  /** The language codes the selector passes, and their stored forms. */
  predicate SelectorCode(code: string) { code == "fr" || code == "en" }
  predicate StoredCode(code: string) { code == "FR" || code == "EN" }

  /** The screen's state. */
  class ProfileState {
    var isDarkMode: bool
    var language: string
    var notificationSettings: seq<NotificationSetting>

    ghost predicate Valid()
      reads this
    {
      StoredCode(language)
    }

    constructor ()
      ensures Valid()
      ensures !isDarkMode && language == "FR" && notificationSettings == InitialSettings
    {
      isDarkMode := false;
      language := "FR";
      notificationSettings := InitialSettings;
    }

    /** What the language selector is shown: `language.toLowerCase()`. */
    function CurrentSelectorLanguage(): (code: string)
      reads this
      requires Valid()
      ensures SelectorCode(code)
      ensures Upper(code) == language
    {
      Lower(language)
    }

    /** `handleThemeToggle`. */
    method HandleThemeToggle()
      modifies this
      ensures isDarkMode == !old(isDarkMode)
      ensures language == old(language) && notificationSettings == old(notificationSettings)
    {
      isDarkMode := !isDarkMode;
    }

    /**
     * `handleLanguageChange`: stores the upper-case code, so that the
     * selector is shown back the code it passed.
     */
    method HandleLanguageChange(newLanguage: string)
      requires SelectorCode(newLanguage)
      modifies this
      ensures language == Upper(newLanguage) && Valid()
      ensures CurrentSelectorLanguage() == newLanguage
      ensures isDarkMode == old(isDarkMode) && notificationSettings == old(notificationSettings)
    {
      language := Upper(newLanguage);
      LowerUpper(newLanguage);
    }

    /** `handleNotificationToggle`. */
    method HandleNotificationToggle(id: string)
      modifies this
      ensures notificationSettings == ToggleSetting(old(notificationSettings), id)
      ensures isDarkMode == old(isDarkMode) && language == old(language)
    {
      notificationSettings := ToggleSetting(notificationSettings, id);
    }
  }
}
