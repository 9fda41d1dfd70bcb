/** The generic form component: the value each control shows, the plain-control edits, and
    the tag editor with its text buffer, Enter key and remove buttons. */
module CommonForm {

  import Text
  import Lists

  /** What the form data holds under a key: a string (written by the plain controls and the
      tag buffer) or a list of tags. */
  datatype Entry = Scalar(s: string) | Tags(tags: seq<string>)

  /** The form data record. */
  type FormData = map<string, Entry>

  /** The value a plain control or a tag buffer shows: the string under the key, or `""`
      when the key is missing (an empty string is falsy and also reads as `""`). */
  function ScalarValue(data: FormData, name: string): (v: string)
    ensures name in data && data[name].Scalar? ==> v == data[name].s
    ensures !(name in data && data[name].Scalar?) ==> v == ""
  {
    if name in data && data[name].Scalar? then data[name].s else ""
  }

  /** The tags a tag control shows: the list under the key, or none when it is missing. */
  function TagsValue(data: FormData, name: string): (v: seq<string>)
    ensures name in data && data[name].Tags? ==> v == data[name].tags
    ensures !(name in data && data[name].Tags?) ==> v == []
  {
    if name in data && data[name].Tags? then data[name].tags else []
  }

  /** The key under which a tag control keeps its text buffer. */
  function InputKey(name: string): (k: string)
    ensures |k| == |name| + 8 && k[..2] == "__" && k[2..|name| + 2] == name && k[|name| + 2..] == "_input"
  {
    "__" + name + "_input"
  }

  /** The `onChange` of an input, select or textarea: the control's key takes the new value,
      every other key is kept. */
  function SetScalar(data: FormData, name: string, value: string): (r: FormData)
    ensures ScalarValue(r, name) == value
    ensures r.Keys == data.Keys + {name}
    ensures forall k | k in data && k != name :: r[k] == data[k]
  {
    data[name := Scalar(value)]
  }

  /** The `onChange` of a tag control's input: only the buffer changes. */
  function TypeIntoTagInput(data: FormData, name: string, value: string): (r: FormData)
    ensures ScalarValue(r, InputKey(name)) == value
    ensures r.Keys == data.Keys + {InputKey(name)}
    ensures forall k | k in data && k != InputKey(name) :: r[k] == data[k]
  {
    data[InputKey(name) := Scalar(value)]
  }

  /** The outcome of a key press in a tag input: the new form data, and whether the key's
      default action (for Enter, submitting the form) was prevented. */
  datatype KeyOutcome = KeyOutcome(data: FormData, prevented: bool)

  /** A new tag appended to a control's list, with its buffer cleared; the buffer key is never
      the control's own key, and every other key is kept. */
  function AddTag(data: FormData, name: string, tag: string): (r: FormData)
    ensures TagsValue(r, name) == TagsValue(data, name) + [tag]
    ensures ScalarValue(r, InputKey(name)) == ""
    ensures forall k | k in data && k != name && k != InputKey(name) :: k in r && r[k] == data[k]
    ensures r.Keys == data.Keys + {name, InputKey(name)}
  {
    assert |InputKey(name)| != |name|;
    data[name := Tags(TagsValue(data, name) + [tag])][InputKey(name) := Scalar("")]
  }

  /** The `onKeyDown` of a tag input. Enter with a non-blank buffer is consumed; its trimmed
      text is added unless the tag is already present, in which case nothing changes. Any
      other key, or Enter with a blank buffer, changes nothing and is not prevented. */
  function PressKey(data: FormData, name: string, key: string): (r: KeyOutcome)
    ensures r.prevented <==> key == "Enter" && !Text.Blank(ScalarValue(data, InputKey(name)))
    ensures var tag := Text.Trim(ScalarValue(data, InputKey(name)));
      r.data == if r.prevented && tag !in TagsValue(data, name) then AddTag(data, name, tag) else data
  {
    var tag := Text.Trim(ScalarValue(data, InputKey(name)));
    if key == "Enter" && tag != "" then
      if tag !in TagsValue(data, name) then KeyOutcome(AddTag(data, name, tag), true)
      else KeyOutcome(data, true)
    else KeyOutcome(data, false)
  }

  /** A tag as the editor stores it: non-empty, with no surrounding white space. */
  predicate Trimmed(tag: string)
  {
    tag != "" && Text.Trim(tag) == tag
  }

  /** A tag list as the editor keeps it: every tag non-empty with no surrounding white space,
      and no tag twice. */
  predicate WellFormedTags(tags: seq<string>)
  {
    (forall j | 0 <= j < |tags| :: Trimmed(tags[j]))
    && forall i, j | 0 <= i < j < |tags| :: tags[i] != tags[j]
  }

  /** Appending a trimmed, non-empty tag that is not yet present keeps a list well formed. */
  lemma AppendKeepsTagsWellFormed(tags: seq<string>, tag: string)
    requires WellFormedTags(tags)
    requires Trimmed(tag) && tag !in tags
    ensures WellFormedTags(tags + [tag])
  {
    var updated := tags + [tag];
    forall i, j | 0 <= i < j < |updated| ensures updated[i] != updated[j] {
      assert updated[i] == tags[i];
    }
  }

  /** Pressing a key keeps the shown tag list well formed. */
  lemma PressKeyKeepsTagsWellFormed(data: FormData, name: string, key: string)
    requires WellFormedTags(TagsValue(data, name))
    ensures WellFormedTags(TagsValue(PressKey(data, name, key).data, name))
  {
    var buffer := ScalarValue(data, InputKey(name));
    var tags := TagsValue(data, name);
    var tag := Text.Trim(buffer);
    if PressKey(data, name, key).prevented && tag !in tags {
      Text.TrimIdempotent(buffer);
      AppendKeepsTagsWellFormed(tags, tag);
    }
  }

  /** Where `splice(idx, 1)` starts on a list of length `n`: a negative index counts from
      the end (and is clamped to 0); an index at or past the end removes nothing. */
  function SpliceStart(idx: int, n: nat): (start: int)
    ensures idx >= 0 ==> start == idx
    ensures idx < 0 && n + idx >= 0 ==> start == n + idx
    ensures n + idx < 0 ==> start == 0
  {
    if idx < 0 then (if n + idx < 0 then 0 else n + idx) else idx
  }

  /** `updated.splice(idx, 1)` on a copy of the tags: the element at the start position goes
      and the elements after it shift down one place. */
  method Splice(tags: seq<string>, idx: int) returns (updated: seq<string>)
    ensures updated == Lists.RemoveAt(tags, SpliceStart(idx, |tags|))
  {
    var start := if idx < 0 then (if |tags| + idx < 0 then 0 else |tags| + idx) else idx;
    if !(start < |tags|) {
      return tags;
    }
    var a := new string[|tags| - 1];
    for k := 0 to start
      invariant forall j | 0 <= j < k :: a[j] == tags[j]
    {
      a[k] := tags[k];
    }
    for k := start to |tags| - 1
      invariant forall j | 0 <= j < start :: a[j] == tags[j]
      invariant forall j | start <= j < k :: a[j] == tags[j + 1]
    {
      a[k] := tags[k + 1];
    }
    updated := a[..];
    assert updated == tags[..start] + tags[start + 1..];
  }

  /** The remove button of the tag at `idx`: the tag list loses that tag and nothing else
      changes. */
  method RemoveTag(data: FormData, name: string, idx: int) returns (r: FormData)
    ensures TagsValue(r, name) == Lists.RemoveAt(TagsValue(data, name), SpliceStart(idx, |TagsValue(data, name)|))
    ensures r.Keys == data.Keys + {name}
    ensures forall k | k in data && k != name :: r[k] == data[k]
  {
    var updated := Splice(TagsValue(data, name), idx);
    r := data[name := Tags(updated)];
  }

  /** Removing a tag keeps the list well formed. */
  lemma RemoveKeepsTagsWellFormed(tags: seq<string>, idx: int)
    requires WellFormedTags(tags)
    ensures WellFormedTags(Lists.RemoveAt(tags, idx))
  {
    if 0 <= idx < |tags| {
      var r := Lists.RemoveAt(tags, idx);
      Lists.RemoveAtShifts(tags, idx);
      assert forall j | 0 <= j < |r| :: r[j] == tags[if j < idx then j else j + 1];
      RemoveKeepsDistinct(tags, idx);
    }
  }

  /** Removing an element of a list without repeats leaves a list without repeats. */
  lemma RemoveKeepsDistinct(tags: seq<string>, idx: int)
    requires forall i, j | 0 <= i < j < |tags| :: tags[i] != tags[j]
    requires 0 <= idx < |tags|
    ensures var r := Lists.RemoveAt(tags, idx);
      forall i, j | 0 <= i < j < |r| :: r[i] != r[j]
  {
    var r := Lists.RemoveAt(tags, idx);
    Lists.RemoveAtShifts(tags, idx);
    forall i, j | 0 <= i < j < |r| ensures r[i] != r[j] {
      var i', j' := if i < idx then i else i + 1, if j < idx then j else j + 1;
      assert r[i] == tags[i'] && r[j] == tags[j'] && i' < j';
    }
  }
}
