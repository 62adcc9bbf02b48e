/** The sound list of the main page (web_interface/app.py:232-258): every
    `.ogg` file in the sound folder becomes a (group, file, name, time)
    entry, with the details read from the '_'-separated parts of its name.
    Times are kept in integer milliseconds (the source divides them by
    1000.0 into float seconds). */
module Sounds {
  import opened Text

  const Extension := ".ogg"
  const DefaultGroup := "Other"

  datatype Sound = Sound(group: string, file: string, name: string, timeMs: nat)

  predicate EndsWith(s: string, suffix: string) {
    |suffix| <= |s| && s[|s| - |suffix|..] == suffix
  }

  predicate AllDots(s: string) {
    forall i :: 0 <= i < |s| ==> s[i] == '.'
  }

  /** `os.path.splitext(item)[0]` for a file name ending in ".ogg": the
      extension is dropped unless everything before it is dots, in which
      case the dots and ".ogg" are a hidden file's name with no extension. */
  function Stem(item: string): (stem: string)
    requires EndsWith(item, Extension)
    ensures var base := item[..|item| - |Extension|];
            stem == (if AllDots(base) then item else base)
    ensures stem == item || stem + Extension == item
  {
    var base := item[..|item| - |Extension|];
    if AllDots(base) then item else base
  }

  /** The details of one sound, from its file name without extension. */
  function Classify(file: string): (r: Sound)
    ensures r.file == file
    ensures r.group == DefaultGroup || NoneIn(r.group, {'_'})
    ensures r.name == file || NoneIn(r.name, {'_'})
  {
    var fields := Split(file, {'_'});
    if |fields| == 2 then
      if IsDigits(fields[1]) then Sound(DefaultGroup, file, fields[0], DigitsValue(fields[1]))
      else Sound(fields[0], file, fields[1], 0)
    else if |fields| == 3 then
      Sound(fields[0], file, fields[1], if IsDigits(fields[2]) then DigitsValue(fields[2]) else 0)
    else Sound(DefaultGroup, file, file, 0)
  }

  /** `name_time`: a named sound in the default group with a time. */
  lemma ClassifyTimed(name: string, time: string)
    requires NoneIn(name, {'_'}) && IsDigits(time)
    ensures Classify(name + "_" + time) == Sound(DefaultGroup, name + "_" + time, name, DigitsValue(time))
  {
    assert NoneIn(time, {'_'});
    SplitJoin([name, time], '_');
    assert Join([name, time], '_') == name + "_" + time;
  }

  /** `group_name`: a grouped sound without a time. */
  lemma ClassifyGrouped(group: string, name: string)
    requires NoneIn(group, {'_'}) && NoneIn(name, {'_'}) && !IsDigits(name)
    ensures Classify(group + "_" + name) == Sound(group, group + "_" + name, name, 0)
  {
    SplitJoin([group, name], '_');
    assert Join([group, name], '_') == group + "_" + name;
  }

  /** `group_name_time`: a grouped sound, timed when the last part is digits. */
  lemma ClassifyGroupedTimed(group: string, name: string, time: string)
    requires NoneIn(group, {'_'}) && NoneIn(name, {'_'}) && NoneIn(time, {'_'})
    ensures var file := group + "_" + name + "_" + time;
            Classify(file) == Sound(group, file, name, if IsDigits(time) then DigitsValue(time) else 0)
  {
    var file := group + "_" + name + "_" + time;
    assert file == group + ['_'] + (name + ['_'] + time);
    SplitAtFirst(group, '_', name + ['_'] + time, {'_'});
    SplitAtFirst(name, '_', time, {'_'});
    SplitNoSeparator(time, {'_'});
  }

  /** Any other number of parts: the whole name, in the default group. */
  lemma ClassifyOther(file: string)
    requires Count(file, {'_'}) != 1 && Count(file, {'_'}) != 2
    ensures Classify(file) == Sound(DefaultGroup, file, file, 0)
  {
  }

  /** The `.ogg` items of a directory listing, in listing order. */
  function OggItems(items: seq<string>): (r: seq<string>)
    ensures |r| <= |items|
    ensures forall k :: 0 <= k < |r| ==> EndsWith(r[k], Extension)
    ensures forall j :: 0 <= j < |items| && EndsWith(items[j], Extension) ==> items[j] in r
    ensures forall k :: 0 <= k < |r| ==> r[k] in items
    ensures |items| == 1 ==> r == if EndsWith(items[0], Extension) then items else []
  {
    if items == [] then []
    else
      var init := items[..|items| - 1];
      var last := items[|items| - 1];
      var r := OggItems(init);
      assert forall j :: 0 <= j < |init| ==> items[j] == init[j];
      if EndsWith(last, Extension) then r + [last] else r
  }

  /** Filtering a listing in two parts filters each part, in order: with the
      single-item case this fixes which items are kept, their order and their
      multiplicity. */
  lemma {:induction false} OggItemsAppend(a: seq<string>, b: seq<string>)
    ensures OggItems(a + b) == OggItems(a) + OggItems(b)
  {
    if b == [] {
      assert a + b == a;
    } else {
      var ab := a + b;
      assert ab[..|ab| - 1] == a + b[..|b| - 1];
      assert ab[|ab| - 1] == b[|b| - 1];
      OggItemsAppend(a, b[..|b| - 1]);
    }
  }

  /** The loop that builds the sound list over the sorted directory listing. */
  method ListSounds(items: seq<string>) returns (files: seq<Sound>)
    ensures var oggs := OggItems(items);
            && |files| == |oggs|
            && forall k :: 0 <= k < |files| ==> files[k] == Classify(Stem(oggs[k]))
  {
    files := [];
    ghost var oggs: seq<string> := [];
    var i := 0;
    while i < |items|
      invariant i <= |items|
      invariant oggs == OggItems(items[..i])
      invariant |files| == |oggs|
      invariant forall k :: 0 <= k < |files| ==> files[k] == Classify(Stem(oggs[k]))
    {
      assert items[..i + 1] == items[..i] + [items[i]];
      OggItemsAppend(items[..i], [items[i]]);
      if EndsWith(items[i], Extension) {
        files := files + [Classify(Stem(items[i]))];
        oggs := oggs + [items[i]];
      }
      i := i + 1;
    }
    assert items[..i] == items;
  }
}
