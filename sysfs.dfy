/**
 * Device lookup in sysfs (sysfs/sysfs.go): the devices of a class whose uevent file has
 * every given `property=value` line, reported by the name their `DEVNAME=` line gives.
 * The glob's answer and the file contents come from a `Files.Tree`.
 */
module Sysfs {
  import opened Wrappers
  import opened Text
  import opened Files
  import opened Seqs

  /** The uevent files of the devices of a class. */
  function UeventPattern(devClass: string): string
  {
    "/sys/class/" + devClass + "/*/uevent"
  }

  /** The lines of a uevent file, once the surrounding white space is trimmed. */
  function Lines(ba: string): (values: seq<string>)
    ensures |values| >= 1
  {
    Split(TrimSpace(ba), '\n')
  }

  const DevNamePrefix: string := "DEVNAME="

  /** The device name the lines give: what follows "DEVNAME=" on the last such line, or "". */
  function DevName(values: seq<string>): string
  {
    if values == [] then ""
    else
      var v := values[|values| - 1];
      if HasPrefix(v, DevNamePrefix) then v[|DevNamePrefix|..] else DevName(values[..|values| - 1])
  }

  /** Every filter is one whole line of the file. */
  predicate Matches(values: seq<string>, filters: seq<string>)
  {
    forall k :: 0 <= k < |filters| ==> filters[k] in values
  }

  /** What one file contributes: its device name when it is readable and every filter matches. */
  function DeviceOf(t: Tree, file: string, filters: seq<string>): seq<string>
  {
    match ReadFile(t, file)
    case Failure(_) => []
    case Success(ba) => if Matches(Lines(ba), filters) then [DevName(Lines(ba))] else []
  }

  /** The devices the loop over the matched files collects, in file order. */
  function Devices(t: Tree, files: seq<string>, filters: seq<string>): (out: seq<string>)
    ensures |out| <= |files|
  {
    if files == [] then []
    else Devices(t, files[..|files| - 1], filters) + DeviceOf(t, files[|files| - 1], filters)
  }

  /** `DeviceByProperty(class, filters...)`: None (a nil slice) when the glob fails. */
  function DeviceByPropertySpec(t: Tree, devClass: string, filters: seq<string>): Option<seq<string>>
  {
    match Glob(t, UeventPattern(devClass))
    case Failure(_) => None
    case Success(files) => Some(Devices(t, files, filters))
  }

  /** `DeviceByProperty(class, filters...)`. */
  method DeviceByProperty(t: Tree, devClass: string, filters: seq<string>) returns (r: Option<seq<string>>)
    ensures r == DeviceByPropertySpec(t, devClass, filters)
  {
    var g := Glob(t, UeventPattern(devClass));
    if g.Failure? {
      return None;
    }
    var files := g.value;
    var filtered := [];
    label filesLoop:
    for i := 0 to |files|
      invariant filtered == Devices(t, files[..i], filters)
    {
      DevicesStep(t, files, i, filters);
      var ba := ReadFile(t, files[i]);
      if ba.Failure? {
        assert DeviceOf(t, files[i], filters) == [];
        continue;
      }
      var values := Split(TrimSpace(ba.value), '\n');
      var devName := ReadDevName(values);
      for k := 0 to |filters|
        invariant Matches(values, filters[..k])
      {
        var found := HasLine(values, filters[k]);
        if !found {
          MatchesNeedsEach(values, filters, k);
          assert DeviceOf(t, files[i], filters) == [];
          continue filesLoop;
        }
        MatchesGrows(values, filters, k);
      }
      WholePrefix(filters);
      assert DeviceOf(t, files[i], filters) == [devName];
      filtered := filtered + [devName];
    }
    WholePrefix(files);
    return Some(filtered);
  }

  lemma DevicesStep(t: Tree, files: seq<string>, i: nat, filters: seq<string>)
    requires i < |files|
    ensures Devices(t, files[..i + 1], filters) == Devices(t, files[..i], filters) + DeviceOf(t, files[i], filters)
  {
    PrefixGrows(files, i);
  }

  lemma MatchesGrows(values: seq<string>, filters: seq<string>, k: nat)
    requires k < |filters| && Matches(values, filters[..k]) && filters[k] in values
    ensures Matches(values, filters[..k + 1])
  {
    PrefixGrows(filters, k);
  }

  lemma MatchesNeedsEach(values: seq<string>, filters: seq<string>, k: nat)
    requires k < |filters| && filters[k] !in values
    ensures !Matches(values, filters)
  {
  }

  /** The search for one filter among the lines, stopping at the first equal line. */
  method HasLine(values: seq<string>, filter: string) returns (found: bool)
    ensures found <==> filter in values
  {
    found := false;
    for j := 0 to |values|
      invariant !found ==> forall j' :: 0 <= j' < j ==> values[j'] != filter
      invariant found ==> filter in values
    {
      if filter == values[j] {
        found := true;
        break;
      }
    }
  }

  /** The `DEVNAME=` loop: the last such line wins. */
  method ReadDevName(values: seq<string>) returns (devName: string)
    ensures devName == DevName(values)
  {
    devName := "";
    for j := 0 to |values|
      invariant devName == DevName(values[..j])
    {
      PrefixGrows(values, j);
      if HasPrefix(values[j], DevNamePrefix) {
        devName := values[j][|DevNamePrefix|..];
      }
    }
    WholePrefix(values);
  }

  // ---------------------------------------------------------------------------------------
  // Properties

  /**
   * The device name is "" when no line starts with "DEVNAME=", and otherwise the rest of the
   * last line that does.
   */
  lemma {:induction false} DevNameLast(values: seq<string>)
    ensures (forall i :: 0 <= i < |values| ==> !HasPrefix(values[i], DevNamePrefix)) ==> DevName(values) == ""
    ensures (exists i :: 0 <= i < |values| && HasPrefix(values[i], DevNamePrefix)) ==>
      exists i :: 0 <= i < |values| && HasPrefix(values[i], DevNamePrefix)
        && DevName(values) == values[i][|DevNamePrefix|..]
        && forall j :: i < j < |values| ==> !HasPrefix(values[j], DevNamePrefix)
    decreases |values|
  {
    if values != [] {
      var init := values[..|values| - 1];
      DevNameLast(init);
      if !HasPrefix(values[|values| - 1], DevNamePrefix) {
        forall i | 0 <= i < |init| ensures init[i] == values[i] {
        }
        if exists i :: 0 <= i < |values| && HasPrefix(values[i], DevNamePrefix) {
          var i :| 0 <= i < |values| && HasPrefix(values[i], DevNamePrefix);
          assert HasPrefix(init[i], DevNamePrefix);
        }
      }
    }
  }

  /** A file's device is reported exactly when it is readable and every filter is one of its lines. */
  lemma DeviceKept(t: Tree, file: string, filters: seq<string>)
    ensures |DeviceOf(t, file, filters)| <= 1
    ensures DeviceOf(t, file, filters) != [] <==>
      && ReadFile(t, file).Success?
      && forall k :: 0 <= k < |filters| ==> filters[k] in Lines(ReadFile(t, file).value)
    ensures DeviceOf(t, file, filters) != [] ==>
      DeviceOf(t, file, filters) == [DevName(Lines(t.files[file]))]
  {
  }

  /** The output follows file order: each part of the file list contributes in turn. */
  lemma {:induction false} DevicesAppend(t: Tree, a: seq<string>, b: seq<string>, filters: seq<string>)
    ensures Devices(t, a + b, filters) == Devices(t, a, filters) + Devices(t, b, filters)
    decreases |b|
  {
    if b == [] {
      AppendEmpty(a);
    } else {
      DevicesAppend(t, a, b[..|b| - 1], filters);
      AppendInit(a, b);
    }
  }

  /** The number of readable files in the list. */
  function Readable(t: Tree, files: seq<string>): nat
  {
    if files == [] then 0
    else Readable(t, files[..|files| - 1]) + (if ReadFile(t, files[|files| - 1]).Success? then 1 else 0)
  }

  /** With no filters, every readable uevent file contributes one entry. */
  lemma {:induction false} NoFiltersKeepsReadable(t: Tree, files: seq<string>)
    ensures |Devices(t, files, [])| == Readable(t, files)
    decreases |files|
  {
    if files != [] {
      NoFiltersKeepsReadable(t, files[..|files| - 1]);
    }
  }

  /** An unreadable file contributes nothing. */
  lemma UnreadableSkipped(t: Tree, files: seq<string>, file: string, filters: seq<string>)
    requires ReadFile(t, file).Failure?
    ensures Devices(t, files + [file], filters) == Devices(t, files, filters)
  {
    AppendInit(files, [file]);
    AppendEmpty(files);
  }

  /** A failing glob gives a nil result, and a succeeding one at most one name per file. */
  lemma DeviceByPropertyResult(t: Tree, devClass: string, filters: seq<string>)
    ensures var g := Glob(t, UeventPattern(devClass));
      && (g.Failure? <==> DeviceByPropertySpec(t, devClass, filters).None?)
      && (g.Success? ==> |DeviceByPropertySpec(t, devClass, filters).value| <= |g.value|)
  {
  }
}
