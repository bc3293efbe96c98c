/** The editor for the AI-training prompts (src/scripts/page/prompt-editor.tsx):
    one prompt per prompt type, edited in a text area, kept in the browser's
    local storage under "prompt-" and the type's name.

    Local storage is a map from key to text. The default prompts, which the
    editor imports from elsewhere, are a parameter: the list of their
    entries in the order `Object.entries` gives them. */
module PromptEditor {
  import opened Opt
  import opened JsStrings
  import opened JsNumbers

  /** The longest prompt the text area accepts. */
  const MaxCharacters: nat := 750

  /** The five prompt types, one tab each (lines 7-13). */
  datatype PromptType = PromoCode | PriceDrop | ClipCoupon | CheckoutDiscount | CustomInstructions

  const PromptTypes: seq<PromptType> := [PromoCode, PriceDrop, ClipCoupon, CheckoutDiscount, CustomInstructions]

  /** The name a prompt type is shown and stored under. */
  function TypeName(t: PromptType): string {
    match t
    case PromoCode => "Promo Code"
    case PriceDrop => "Price Drop"
    case ClipCoupon => "Clip Coupon"
    case CheckoutDiscount => "Checkout Discount"
    case CustomInstructions => "Custom Instructions"
  }

  const KeyPrefix: string := "prompt-"

  /** The storage key of a prompt type, or of a default entry's name. */
  function StorageKey(name: string): (key: string)
    ensures |key| == |KeyPrefix| + |name|
    ensures key[..|KeyPrefix|] == KeyPrefix && key[|KeyPrefix|..] == name
  {
    KeyPrefix + name
  }

  /** Different names are stored under different keys. */
  lemma StorageKeyInjective(a: string, b: string)
    ensures StorageKey(a) == StorageKey(b) <==> a == b
  {
    if StorageKey(a) == StorageKey(b) {
      assert a == StorageKey(a)[|KeyPrefix|..];
    }
  }

  /** The five types have five different names, so five different keys. */
  lemma TypeNamesDistinct(s: PromptType, t: PromptType)
    ensures TypeName(s) == TypeName(t) <==> s == t
  {
    if s != t {
      assert |TypeName(s)| != |TypeName(t)| || TypeName(s)[2] != TypeName(t)[2];
    }
  }

  /** `localStorage.getItem(key) || ''`: a missing or empty entry reads as "". */
  function StoredText(store: map<string, string>, key: string): (text: string)
    ensures key in store ==> text == store[key]
    ensures key !in store ==> text == ""
  {
    if key in store then store[key] else ""
  }

  // ---- The character counter (lines 183-189, 206-212) ----

  datatype CounterColor = Gray | Amber | Red

  /** The counter's colour: red above 90% of the limit (675), amber above
      80% (600), gray otherwise. Both thresholds are whole numbers, so the
      comparisons with the text's length are exact. */
  function CounterColorOf(length: nat): (c: CounterColor)
    ensures c == Red <==> length * 10 > MaxCharacters * 9
    ensures c == Amber <==> MaxCharacters * 8 < length * 10 <= MaxCharacters * 9
    ensures c == Gray <==> length * 10 <= MaxCharacters * 8
  {
    if length > 675 then Red
    else if length > 600 then Amber
    else Gray
  }

  /** The colour only ever darkens as the text grows. */
  lemma CounterColorMonotone(a: nat, b: nat)
    requires a <= b
    ensures CounterColorOf(a) == Red ==> CounterColorOf(b) == Red
    ensures CounterColorOf(a) == Amber ==> CounterColorOf(b) != Gray
  {
  }

  /** The line under the text area: shown only while the counter is red;
      "Character limit reached" from the limit on, else how many characters
      are left. */
  function LimitMessage(length: nat): (m: Option<string>)
    ensures m.Some? <==> CounterColorOf(length) == Red
    ensures length >= MaxCharacters ==> m == Some("Character limit reached")
    ensures CounterColorOf(length) == Red && length < MaxCharacters ==>
      m == Some(NatToString(MaxCharacters - length) + " characters remaining")
  {
    if length > 675 then
      if length >= MaxCharacters then Some("Character limit reached")
      else Some(NatToString(MaxCharacters - length) + " characters remaining")
    else None
  }

  /** While a remaining count is shown, it is between 1 and 74. */
  lemma RemainingCountBounds(length: nat)
    requires LimitMessage(length).Some? && length < MaxCharacters
    ensures 1 <= MaxCharacters - length <= 74
    ensures LimitMessage(length).value != "Character limit reached"
  {
    var m := LimitMessage(length).value;
    var n := NatToString(MaxCharacters - length);
    assert m == n + " characters remaining";
    assert m[0] == n[0] && IsDigit(n[0]);
  }

  // ---- Inserting a variable at the cursor (lines 59-80) ----

  /** `s.slice(0, k)` for a cursor position `k`. */
  function Take(s: string, k: nat): (r: string)
    ensures r <= s && |r| == if k < |s| then k else |s|
  {
    if k < |s| then s[..k] else s
  }

  /** `s.slice(k)` for a cursor position `k`. */
  function Drop(s: string, k: nat): (r: string)
    ensures |r| == if k < |s| then |s| - k else 0
    ensures forall i :: 0 <= i < |r| ==> r[i] == s[k + i]
  {
    if k < |s| then s[k..] else ""
  }

  /** The text with the selection `[start, end)` replaced by `value`. For a
      selection inside the text, the text before it is kept, `value` follows,
      then the text after it; the result is `end - start` characters
      shorter than the text and `|value|` longer. */
  function Splice(text: string, start: nat, end: nat, value: string): (r: string)
    ensures start <= end <= |text| ==>
      |r| == |text| - (end - start) + |value|
      && r[..start] == text[..start]
      && r[start..start + |value|] == value
      && r[start + |value|..] == text[end..]
  {
    var r := Take(text, start) + value + Drop(text, end);
    assert start <= end <= |text| ==> r[start + |value|..] == Drop(text, end) == text[end..];
    r
  }

  /** Inserting with an empty selection at the end appends. */
  lemma SpliceAtEnd(text: string, value: string)
    ensures Splice(text, |text|, |text|, value) == text + value
  {
  }

  /** Insertion does not enforce the limit: a 750-character text and a
      one-character variable give a 751-character text. */
  lemma InsertCanExceedLimit(text: string, value: string, start: nat, end: nat)
    requires |text| == MaxCharacters && value != [] && start == end <= |text|
    ensures |Splice(text, start, end, value)| > MaxCharacters
  {
  }

  // ---- The editor's state ----

  class Editor {
    var selectedTab: PromptType
    var promptText: string
    var originalText: string
    var hasChanges: bool
    /** The browser's local storage. */
    var store: map<string, string>

    /** The effect of lines 55-57 runs after every change of either text, so
        once the editor has rendered, `hasChanges` says whether the text
        differs from the one last loaded or saved. */
    predicate Valid()
      reads this
    {
      hasChanges == (promptText != originalText)
    }

    /** The editor as it is first shown: the "Promo Code" tab, with its
        stored prompt loaded by the effect of lines 48-53. */
    constructor(storage: map<string, string>)
      ensures Valid()
      ensures selectedTab == PromoCode && store == storage
      ensures promptText == StoredText(storage, StorageKey(TypeName(PromoCode)))
      ensures originalText == promptText && !hasChanges
    {
      selectedTab := PromoCode;
      store := storage;
      var saved := StoredText(storage, StorageKey(TypeName(PromoCode)));
      promptText := saved;
      originalText := saved;
      hasChanges := false;
    }

    /** A click on a tab (line 169). The load effect (lines 48-53) runs only
        when the tab actually changes: it puts the stored prompt, or "",
        into both texts and clears `hasChanges`. Clicking the open tab
        changes nothing. */
    method SelectTab(tab: PromptType)
      requires Valid()
      modifies this
      ensures Valid()
      ensures selectedTab == tab && store == old(store)
      ensures tab != old(selectedTab) ==>
        promptText == StoredText(store, StorageKey(TypeName(tab))) && originalText == promptText && !hasChanges
      ensures tab == old(selectedTab) ==>
        promptText == old(promptText) && originalText == old(originalText) && hasChanges == old(hasChanges)
    {
      if tab != selectedTab {
        selectedTab := tab;
        var saved := StoredText(store, StorageKey(TypeName(tab)));
        promptText := saved;
        originalText := saved;
        hasChanges := false;
      }
    }

    /** `handleTextChange` (lines 82-87), followed by the `hasChanges`
        effect: an edit of at most 750 characters is taken, a longer one
        is ignored. */
    method HandleTextChange(newText: string)
      requires Valid()
      modifies this`promptText, this`hasChanges
      ensures Valid()
      ensures promptText == if |newText| <= MaxCharacters then newText else old(promptText)
      ensures |old(promptText)| <= MaxCharacters ==> |promptText| <= MaxCharacters
    {
      if |newText| <= MaxCharacters {
        promptText := newText;
      }
      hasChanges := promptText != originalText;
    }

    /** `handleInsertVariable` (lines 59-80), followed by the `hasChanges`
        effect. `hasTextarea` says whether the text area is mounted; the
        selection is the text area's. The cursor position the source puts
        the selection at afterwards is returned. No length limit is
        applied. */
    method HandleInsertVariable(value: string, hasTextarea: bool, selectionStart: nat, selectionEnd: nat)
      returns (cursor: Option<nat>)
      requires Valid()
      modifies this`promptText, this`hasChanges
      ensures Valid()
      ensures !hasTextarea ==> promptText == old(promptText) && cursor.None?
      ensures hasTextarea ==>
        promptText == Splice(old(promptText), selectionStart, selectionEnd, value)
        && cursor == Some(selectionStart + |value|)
    {
      if !hasTextarea {
        return None;
      }
      promptText := Splice(promptText, selectionStart, selectionEnd, value);
      hasChanges := promptText != originalText;
      cursor := Some(selectionStart + |value|);
    }

    /** `handleSave` (lines 89-102): the trimmed text is stored under the
        tab's key, and the untrimmed text becomes the saved one. Writing to
        storage is taken to succeed. */
    method HandleSave()
      modifies this`store, this`originalText, this`hasChanges
      ensures Valid()
      ensures store == old(store)[StorageKey(TypeName(selectedTab)) := Trim(promptText)]
      ensures originalText == promptText && !hasChanges
    {
      store := store[StorageKey(TypeName(selectedTab)) := Trim(promptText)];
      originalText := promptText;
      hasChanges := false;
    }

    /** `handleConfirmLoadDefaults` (lines 112-134): every default entry is
        written under its key, in order, then the open tab's default goes
        into both texts. The defaults are typed by prompt type, so the open
        tab has one. */
    method HandleConfirmLoadDefaults(defaults: seq<(string, string)>)
      requires DistinctNames(defaults)
      requires forall t :: HasDefault(defaults, TypeName(t))
      modifies this`store, this`promptText, this`originalText, this`hasChanges
      ensures Valid()
      ensures store == WithDefaults(old(store), defaults)
      ensures promptText == DefaultFor(defaults, TypeName(selectedTab))
      ensures originalText == promptText && !hasChanges
    {
      var i := 0;
      while i < |defaults|
        invariant 0 <= i <= |defaults|
        invariant store == WithDefaults(old(store), defaults[..i])
      {
        var (name, prompt) := defaults[i];
        assert defaults[..i + 1][..i] == defaults[..i];
        store := store[StorageKey(name) := prompt];
        i := i + 1;
      }
      assert defaults[..|defaults|] == defaults;
      var text := DefaultFor(defaults, TypeName(selectedTab));
      promptText := text;
      originalText := text;
      hasChanges := false;
    }
  }

  // ---- The default prompts ----

  /** The entries of an object: no name twice. */
  predicate DistinctNames(entries: seq<(string, string)>) {
    forall i, j :: 0 <= i < j < |entries| ==> entries[i].0 != entries[j].0
  }

  predicate HasDefault(entries: seq<(string, string)>, name: string) {
    exists i :: 0 <= i < |entries| && entries[i].0 == name
  }

  /** `defaultPrompts[name]`: the prompt of the first entry with that name. */
  function DefaultFor(entries: seq<(string, string)>, name: string): (prompt: string)
    requires HasDefault(entries, name)
    ensures exists i :: 0 <= i < |entries| && entries[i] == (name, prompt)
  {
    if entries[0].0 == name then entries[0].1
    else
      assert HasDefault(entries[1..], name) by {
        var i :| 0 <= i < |entries| && entries[i].0 == name;
        assert entries[1..][i - 1] == entries[i];
      }
      var p := DefaultFor(entries[1..], name);
      var j :| 0 <= j < |entries[1..]| && entries[1..][j] == (name, p);
      assert entries[j + 1] == (name, p);
      p
  }

  /** The storage after writing the entries in order. */
  function WithDefaults(store: map<string, string>, entries: seq<(string, string)>): map<string, string>
    decreases |entries|
  {
    if entries == [] then store
    else
      var last := entries[|entries| - 1];
      WithDefaults(store, entries[..|entries| - 1])[StorageKey(last.0) := last.1]
  }

  /** After loading the defaults, every entry's prompt is stored under its
      name's key. */
  lemma {:induction false} DefaultStored(store: map<string, string>, entries: seq<(string, string)>, j: nat)
    requires DistinctNames(entries) && j < |entries|
    ensures StorageKey(entries[j].0) in WithDefaults(store, entries)
    ensures WithDefaults(store, entries)[StorageKey(entries[j].0)] == entries[j].1
    decreases |entries|
  {
    var n := |entries| - 1;
    if j < n {
      var prefix := entries[..n];
      assert prefix[j] == entries[j];
      DefaultStored(store, prefix, j);
      StorageKeyInjective(entries[j].0, entries[n].0);
    }
  }

  /** Keys that are no entry's key keep their value, and no key is removed. */
  lemma {:induction false} OtherKeysKept(store: map<string, string>, entries: seq<(string, string)>, key: string)
    requires forall i :: 0 <= i < |entries| ==> StorageKey(entries[i].0) != key
    ensures key in WithDefaults(store, entries) <==> key in store
    ensures key in store ==> WithDefaults(store, entries)[key] == store[key]
    decreases |entries|
  {
    if entries != [] {
      var n := |entries| - 1;
      OtherKeysKept(store, entries[..n], key);
    }
  }

  /** So each type's tab, opened after loading the defaults, shows its
      default. */
  lemma DefaultsLoadIntoTabs(store: map<string, string>, entries: seq<(string, string)>, t: PromptType)
    requires DistinctNames(entries) && HasDefault(entries, TypeName(t))
    ensures StoredText(WithDefaults(store, entries), StorageKey(TypeName(t))) == DefaultFor(entries, TypeName(t))
  {
    var j :| 0 <= j < |entries| && entries[j] == (TypeName(t), DefaultFor(entries, TypeName(t)));
    DefaultStored(store, entries, j);
  }

  /** Saving and then switching away and back shows the trimmed text that
      was saved. */
  lemma SavedTextReloads(store: map<string, string>, t: PromptType, text: string)
    ensures StoredText(store[StorageKey(TypeName(t)) := Trim(text)], StorageKey(TypeName(t))) == Trim(text)
  {
  }

  /** Saving one tab leaves every other tab's stored prompt as it was. */
  lemma SaveKeepsOtherTabs(store: map<string, string>, t: PromptType, u: PromptType, text: string)
    requires t != u
    ensures StoredText(store[StorageKey(TypeName(t)) := Trim(text)], StorageKey(TypeName(u)))
         == StoredText(store, StorageKey(TypeName(u)))
  {
    TypeNamesDistinct(t, u);
    StorageKeyInjective(TypeName(t), TypeName(u));
  }
}
