/** Importing a settings file on the options page (`src/ui/options/Options.tsx`):
    `normalizeSettings` lays the parsed record over the defaults of the oldest
    generation (`src/shared/defaults.ts`), and the page's export writes the
    whole record, so that a file exported by the page imports back to the
    same settings. */
module OptionsPage {
  import opened Base
  import opened Types

  /** A parsed settings file, one field per settings key. `None` is a key
      the file leaves out; for `schedules` and `intervalsByDay` it is also a
      falsy value, and for `whitelist` and `blockedDomains` any value that is
      not an array, since those are the cases the page replaces with the
      default. */
  datatype ImportedSettings = ImportedSettings(
    blockEnabled: Option<bool>,
    blockShorts: Option<bool>,
    blockKids: Option<bool>,
    strictMode: Option<bool>,
    pinHash: Option<Option<string>>,
    blockedDomains: Option<seq<string>>,
    whitelist: Option<seq<string>>,
    schedules: Option<WeekSchedule>,
    intervalsByDay: Option<IntervalWeek>,
    timeFormat12h: Option<bool>,
    unblockUntil: Option<Option<int>>)

  /** `v ?? fallback` for a key of the file. */
  function Given<T>(v: Option<T>, fallback: T): (r: T)
    ensures v.Some? ==> r == v.value
    ensures v.None? ==> r == fallback
  {
    if v.Some? then v.value else fallback
  }

  /** `normalizeSettings(data)`: every key the file gives wins over the
      default; `schedules` and `intervalsByDay` fall back when falsy,
      `whitelist` and `blockedDomains` unless they are arrays. */
  function NormalizeSettings(defaults: SharedSettings, data: ImportedSettings): SharedSettings
  {
    SharedSettings(
      blockEnabled := Given(data.blockEnabled, defaults.blockEnabled),
      blockShorts := Given(data.blockShorts, defaults.blockShorts),
      blockKids := Given(data.blockKids, defaults.blockKids),
      strictMode := Given(data.strictMode, defaults.strictMode),
      pinHash := Given(data.pinHash, defaults.pinHash),
      blockedDomains := Given(data.blockedDomains, defaults.blockedDomains),
      whitelist := Given(data.whitelist, defaults.whitelist),
      schedules := Given(data.schedules, defaults.schedules),
      intervalsByDay := Given(data.intervalsByDay, defaults.intervalsByDay),
      timeFormat12h := Given(data.timeFormat12h, defaults.timeFormat12h),
      unblockUntil := Given(data.unblockUntil, defaults.unblockUntil))
  }

  /** The file `exportSettings()` writes, as `JSON.parse` reads it back: every
      key is present, and an object week is truthy. */
  function Exported(s: SharedSettings): ImportedSettings
  {
    ImportedSettings(
      Some(s.blockEnabled), Some(s.blockShorts), Some(s.blockKids), Some(s.strictMode),
      Some(s.pinHash), Some(s.blockedDomains), Some(s.whitelist), Some(s.schedules),
      Some(s.intervalsByDay), Some(s.timeFormat12h), Some(s.unblockUntil))
  }

  /** A file with none of the keys imports as the defaults. */
  function NothingImported(): ImportedSettings
  {
    ImportedSettings(None, None, None, None, None, None, None, None, None, None, None)
  }

  /** Exporting and importing again restores the settings exactly, whatever
      the defaults are. */
  lemma ExportImportRoundTrip(defaults: SharedSettings, s: SharedSettings)
    ensures NormalizeSettings(defaults, Exported(s)) == s
  {
  }

  /** An empty file imports as the defaults. */
  lemma EmptyFileGivesDefaults(defaults: SharedSettings)
    ensures NormalizeSettings(defaults, NothingImported()) == defaults
  {
  }

  /** Importing a file, exporting the result and importing that file gives
      the same settings as the first import. */
  lemma ImportIdempotent(defaults: SharedSettings, data: ImportedSettings)
    ensures var once := NormalizeSettings(defaults, data);
      NormalizeSettings(defaults, Exported(once)) == once
  {
    ExportImportRoundTrip(defaults, NormalizeSettings(defaults, data));
  }

  /** The imported lists are the file's arrays when it has them and the
      default lists otherwise; in particular a file without lists leaves the
      defaults' whitelist and blocked domains in place. */
  lemma ImportedLists(defaults: SharedSettings, data: ImportedSettings)
    ensures var s := NormalizeSettings(defaults, data);
      (data.whitelist.Some? ==> s.whitelist == data.whitelist.value)
      && (data.whitelist.None? ==> s.whitelist == defaults.whitelist)
      && (data.blockedDomains.Some? ==> s.blockedDomains == data.blockedDomains.value)
      && (data.blockedDomains.None? ==> s.blockedDomains == defaults.blockedDomains)
  {
  }

  /** A file that gives every key imports to the same settings whatever the
      defaults are. */
  lemma CompleteFileIgnoresDefaults(d1: SharedSettings, d2: SharedSettings, data: ImportedSettings)
    requires data.blockEnabled.Some? && data.blockShorts.Some? && data.blockKids.Some?
    requires data.strictMode.Some? && data.pinHash.Some? && data.blockedDomains.Some?
    requires data.whitelist.Some? && data.schedules.Some? && data.intervalsByDay.Some?
    requires data.timeFormat12h.Some? && data.unblockUntil.Some?
    ensures NormalizeSettings(d1, data) == NormalizeSettings(d2, data)
  {
  }
}
