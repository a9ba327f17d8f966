/**
 * The console tool's class filter: a class is skipped, before any of its
 * instances is asked for, when any entry of a fixed list of partial names
 * occurs in its name (ordinal, case-sensitive substring search, not equality).
 */
module Exclusion {
  import opened Text

  /** The partial names, in the order the tool lists them, duplicates included;
      one group per line of the list in wmi-explorer.cs, in three blocks of
      five lines: `PartialsFirst` holds lines 32-36, `PartialsMiddle` lines
      37-41 and `PartialsLast` lines 42-46. */
  const ExcludedPartials: seq<string> := PartialsFirst + PartialsMiddle + PartialsLast

  const PartialsFirst: seq<string> :=
      ["SecuritySettingOfLogicalFile", "COMApplicationSettings", "SystemProgramGroups"]
    + ["PnPEntity", "LogicalDisk", "CacheMemory", "Volume", "Process", "SoftwareElement"]
    + ["DataFile", "Directory", "ClassicCOMClassSettings", "ShortcutFile", "ShortcutAction"]
    + ["SubDirectory", "ProgramGroupContents", "SoftwareFeatureSoftwareElements"]
    + ["rectoryContainsFile", "ClassicCOMApplicationClasses", "VolumeQuota"]

  const PartialsMiddle: seq<string> :=
      ["VolumeQuotaSetting", "CDROMDrive", "StorageVolume", "PnPSignedDriver", "Service"]
    + ["SystemDriver", "Thread", "DCOMApplication", "SoftwareFeature", "ClassicCOMClass"]
    + ["DeviceMemoryAddress", "IRQResource", "PhysicalMedia", "QuotaSetting", "Property"]
    + ["Binary", "PNPAllocatedResource", "ClassicCOMClassSetting", "DiskDrivePhysicalMedia"]
    + ["AllocatedResource", "PnPDevice", "NetworkAdapterSetting", "SecuritySettingOfLogicalShare"]

  const PartialsLast: seq<string> :=
      ["SystemDevices", "VideoSettings", "ProcessExecutable", "NTLogEvent", "RegistryAction"]
    + ["ProductResource", "ActionCheck", "ImplementedCategory", "InstalledSoftwareElement"]
    + ["FileSpecification", "ReliabilityRecords", "DiskQuota", "ActionCheck", "EventLog"]
    + ["PnP", "Networking", "Printer", "SerialPort", "CreateFolderAction", "CheckCheck"]
    + ["MpThreatCatalog"]

  /** `List.Exists` of `className.Contains(partial)` over a list of partial
      names: the entries are tried in order until one occurs. */
  function AnyOccurs(partials: seq<string>, className: string): bool
  {
    partials != [] && (Contains(className, partials[0]) || AnyOccurs(partials[1..], className))
  }

  /** The filter holds exactly when some entry occurs in the class name. */
  lemma {:induction false} AnyOccursMeaning(partials: seq<string>, className: string)
    ensures AnyOccurs(partials, className) <==> exists k :: 0 <= k < |partials| && Occurs(partials[k], className)
  {
    if partials != [] {
      AnyOccursMeaning(partials[1..], className);
      if AnyOccurs(partials[1..], className) {
        var k :| 0 <= k < |partials[1..]| && Occurs(partials[1..][k], className);
        assert partials[k + 1] == partials[1..][k];
      }
      if exists k :: 0 <= k < |partials| && Occurs(partials[k], className) {
        var k :| 0 <= k < |partials| && Occurs(partials[k], className);
        if k > 0 {
          assert partials[1..][k - 1] == partials[k];
        }
      }
    }
  }

  /** The tool's exclusion check for one class name. */
  function IsExcluded(className: string): bool
  {
    AnyOccurs(ExcludedPartials, className)
  }

  /** An entry longer than the class name cannot occur in it. */
  lemma LongerNeverOccurs(sub: string, s: string)
    requires |sub| > |s|
    ensures !Occurs(sub, s)
  {
  }

  /** A non-empty entry whose first character does not appear in the class name cannot occur in it. */
  lemma LeadCharAbsent(sub: string, s: string)
    requires |sub| > 0 && sub[0] !in s
    ensures !Occurs(sub, s)
  {
    forall i | 0 <= i <= |s| ensures !IsPrefix(sub, s[i..]) {
      if i < |s| {
        assert s[i..][0] == s[i];
      }
    }
  }

  /** A class name is kept when every entry is longer than it, except a few
      (`short`) that are known not to occur in it. */
  lemma {:induction false} OnlyShortEntriesCanMatch(partials: seq<string>, className: string, short: seq<string>)
    requires forall p | p in partials :: |p| > |className| || p in short
    requires forall p | p in short :: !Occurs(p, className)
    ensures !AnyOccurs(partials, className)
  {
    AnyOccursMeaning(partials, className);
    forall k | 0 <= k < |partials| ensures !Occurs(partials[k], className) {
      assert partials[k] in partials;
      if |partials[k]| > |className| {
        LongerNeverOccurs(partials[k], className);
      }
    }
  }

  /** An entry that contains another entry of the list never decides anything:
      removing it leaves the filter unchanged.  Duplicates are the special case
      of an entry containing an equal one. */
  lemma SubsumedEntryRedundant(partials: seq<string>, i: nat, j: nat, className: string)
    requires i < |partials| && j < |partials| && i != j
    requires Occurs(partials[j], partials[i])
    ensures AnyOccurs(partials[..i] + partials[i + 1..], className) == AnyOccurs(partials, className)
  {
    var rest := partials[..i] + partials[i + 1..];
    var j' := if j < i then j else j - 1;
    assert rest[j'] == partials[j];
    forall k | 0 <= k < |rest| ensures rest[k] == partials[if k < i then k else k + 1] {}
    AnyOccursMeaning(partials, className);
    AnyOccursMeaning(rest, className);
    if Occurs(partials[i], className) {
      OccursTransitive(partials[j], partials[i], className);
    }
    if AnyOccurs(partials, className) {
      var k :| 0 <= k < |partials| && Occurs(partials[k], className);
      if k != i {
        assert rest[if k < i then k else k - 1] == partials[k];
      }
    }
  }

  /** `ActionCheck` is listed twice; dropping the second copy changes no decision. */
  lemma DuplicateEntryIrrelevant(className: string)
    ensures ExcludedPartials[49] == ExcludedPartials[55] == "ActionCheck"
    ensures AnyOccurs(ExcludedPartials[..55] + ExcludedPartials[56..], className) == IsExcluded(className)
  {
    OccursReflexive("ActionCheck");
    SubsumedEntryRedundant(ExcludedPartials, 55, 49, className);
  }

  /** A class is excluded as soon as one entry occurs in its name. */
  lemma EntryOccurrenceExcludes(k: nat, className: string)
    requires k < |ExcludedPartials| && Occurs(ExcludedPartials[k], className)
    ensures IsExcluded(className)
  {
    AnyOccursMeaning(ExcludedPartials, className);
  }

  /** Entry 57 of the list is `PnP`. */
  lemma EntryPnP()
    ensures ExcludedPartials[57] == "PnP"
  {
    assert ExcludedPartials[57] == PartialsLast[57 - |PartialsFirst| - |PartialsMiddle|];
  }

  /** `Win32_PnPEntity` is excluded because `PnP` occurs in it. */
  lemma PnPEntityExcludedByPartialMatch()
    ensures IsExcluded("Win32_PnPEntity")
  {
    var name := "Win32_PnPEntity";
    assert IsPrefix("PnP", name[6..]);
    EntryPnP();
    EntryOccurrenceExcludes(57, name);
  }

  /** The only entries of at most six characters are `Volume`, `Thread`, `Binary` and `PnP`. */
  lemma ShortEntries()
    ensures forall p | p in ExcludedPartials :: |p| > 6 || p in ["Volume", "Thread", "Binary", "PnP"]
  {
    ShortEntriesFirst();
    ShortEntriesMiddle();
    ShortEntriesLast();
  }

  lemma ShortEntriesFirst()
    ensures forall p | p in PartialsFirst :: |p| > 6 || p in ["Volume", "Thread", "Binary", "PnP"]
  {
  }

  lemma ShortEntriesMiddle()
    ensures forall p | p in PartialsMiddle :: |p| > 6 || p in ["Volume", "Thread", "Binary", "PnP"]
  {
  }

  lemma ShortEntriesLast()
    ensures forall p | p in PartialsLast :: |p| > 6 || p in ["Volume", "Thread", "Binary", "PnP"]
  {
  }

  /** A name of at most six characters with no `P`, `V`, `T` or `B` in it is
      kept: only `Volume`, `Thread`, `Binary` and `PnP` are short enough to
      occur in it, and their first letters are missing. */
  lemma ShortNameKept(className: string)
    requires |className| <= 6
    requires 'P' !in className && 'V' !in className && 'T' !in className && 'B' !in className
    ensures !IsExcluded(className)
  {
    assert forall p | p in ["Volume", "Thread", "Binary", "PnP"] :: !Occurs(p, className) by {
      LeadCharAbsent("PnP", className);
      LeadCharAbsent("Volume", className);
      LeadCharAbsent("Thread", className);
      LeadCharAbsent("Binary", className);
    }
    assert forall p | p in ExcludedPartials :: |p| > |className| || p in ["Volume", "Thread", "Binary", "PnP"] by {
      ShortEntries();
    }
    OnlyShortEntriesCanMatch(ExcludedPartials, className, ["Volume", "Thread", "Binary", "PnP"]);
  }

  /** Matching is containment, not equality, and it is case-sensitive: `PnP`
      excludes itself and every name it occurs in, but not `pnp`. */
  lemma MatchingIsCaseSensitive()
    ensures IsExcluded("PnP") && IsExcluded("Win32_PnPEntity")
    ensures !IsExcluded("pnp")
  {
    assert IsExcluded("PnP") by {
      OccursReflexive("PnP");
      EntryPnP();
      EntryOccurrenceExcludes(57, "PnP");
    }
    assert IsExcluded("Win32_PnPEntity") by {
      PnPEntityExcludedByPartialMatch();
    }
    assert !IsExcluded("pnp") by {
      ShortNameKept("pnp");
    }
  }

  /** A class such as `Widget`, in which no entry occurs, is kept. */
  lemma WidgetKept()
    ensures !IsExcluded("Widget")
  {
    ShortNameKept("Widget");
  }
}
