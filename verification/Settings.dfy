/**
 * Masking the secrets of a source's settings for the editor, and putting them back when the edited settings are saved.
 * An object is its entries in order; own properties only.
 */
module Settings {
  import opened Basics

  datatype Json =
    | Null
    | Bool(b: bool)
    | Num(n: int)
    | Str(s: string)
    | Arr(items: seq<Json>)
    | Obj(fields: seq<Field>)
  datatype Field = Field(key: string, value: Json)

  const MASKED := "[unchanged]"

  // Which keys are secret

  predicate StartsWith(text: string, word: string) {
    |word| <= |text| && forall i | 0 <= i < |word| :: Lower(text[i]) == word[i]
  }

  predicate Contains(text: string, word: string) {
    exists i | 0 <= i <= |text| :: StartsWith(text[i..], word)
  }

  predicate IsSecret(key: string) {
    exists word | word in ["secret", "password", "token", "apikey", "api_key", "api-key"] :: Contains(key, word)
  }

  // Objects and paths

  function Find(fields: seq<Field>, key: string): Option<Json> {
    if fields == [] then None else if fields[0].key == key then Some(fields[0].value) else Find(fields[1..], key)
  }

  /** No object has one key twice. */
  ghost predicate WellFormed(v: Json) {
    match v
    case Arr(items) => forall i | 0 <= i < |items| :: WellFormed(items[i])
    case Obj(fields) =>
      && (forall i, j | 0 <= i < j < |fields| :: fields[i].key != fields[j].key)
      && (forall i | 0 <= i < |fields| :: WellFormed(fields[i].value))
    case _ => true
  }

  lemma {:induction false} FindUnique(fields: seq<Field>, i: nat)
    requires i < |fields| && forall i, j | 0 <= i < j < |fields| :: fields[i].key != fields[j].key
    ensures Find(fields, fields[i].key) == Some(fields[i].value)
  {
    if i > 0 {
      FindUnique(fields[1..], i - 1);
    }
  }

  datatype Step = Key(key: string) | Index(i: nat)

  /** An array's element reached by a property name: JavaScript reads "0", "1", ... as indices. */
  function Named(items: seq<Json>, key: string): Option<Json> {
    match ArrayIndex(key)
    case Some(i) => if i < |items| then Some(items[i]) else None
    case None => None
  }

  function ArrayIndex(key: string): Option<nat> {
    if key == "" || !('0' <= key[|key| - 1] <= '9') || (|key| > 1 && key[0] == '0') then None
    else
      var digit := key[|key| - 1] as int - '0' as int;
      if |key| == 1 then Some(digit)
      else match ArrayIndex(key[..|key| - 1])
        case Some(n) => Some(10 * n + digit)
        case None => None
  }

  /** One step into the original, where undefined and everything that is no container lead nowhere. */
  function Follow(original: Option<Json>, step: Step): Option<Json> {
    match (original, step)
    case (Some(Obj(fields)), Key(key)) => Find(fields, key)
    case (Some(Arr(items)), Key(key)) => Named(items, key)
    case (Some(Arr(items)), Index(i)) => if i < |items| then Some(items[i]) else None
    case _ => None
  }

  function FollowAll(original: Option<Json>, path: seq<Step>): Option<Json>
    decreases |path|
  {
    if path == [] then original else FollowAll(Follow(original, path[0]), path[1..])
  }

  /** The value at a path into a tree, by its own keys and indices. */
  function At(v: Json, path: seq<Step>): Option<Json>
    decreases |path|
  {
    if path == [] then Some(v)
    else match (v, path[0])
      case (Obj(fields), Key(key)) =>
        (match Find(fields, key)
         case Some(value) => At(value, path[1..])
         case None => None)
      case (Arr(items), Index(i)) => if i < |items| then At(items[i], path[1..]) else None
      case _ => None
  }

  /** The key a value is under: its own, or that of the array it is in. */
  function KeyAt(key: string, path: seq<Step>): string
    decreases |path|
  {
    if path == [] then key else KeyAt(if path[0].Key? then path[0].key else key, path[1..])
  }

  // Masking

  function Mask(v: Json, key: string): Json {
    match v
    case Arr(items) => Arr(seq(|items|, i requires 0 <= i < |items| => Mask(items[i], key)))
    case Obj(fields) =>
      Obj(seq(|fields|, i requires 0 <= i < |fields| => Field(fields[i].key, Mask(fields[i].value, fields[i].key))))
    case Str(s) => if IsSecret(key) && s != "" then Str(MASKED) else v
    case _ => v
  }

  /** The edited tree with the original's secrets; none when a placeholder has no secret to stand for. */
  function Unmask(v: Json, original: Option<Json>, key: string): Option<Json> {
    if v == Str(MASKED) && IsSecret(key) then
      (if original.Some? && original.value.Str? then original else None)
    else match v
      case Arr(items) =>
        if forall i | 0 <= i < |items| :: Unmask(items[i], Follow(original, Index(i)), key).Some? then
          Some(Arr(seq(|items|, i requires 0 <= i < |items| =>
            Unmask(items[i], Follow(original, Index(i)), key).value)))
        else None
      case Obj(fields) =>
        if forall i | 0 <= i < |fields| ::
             Unmask(fields[i].value, Follow(original, Key(fields[i].key)), fields[i].key).Some?
        then
          Some(Obj(seq(|fields|, i requires 0 <= i < |fields| =>
            Field(fields[i].key, Unmask(fields[i].value, Follow(original, Key(fields[i].key)), fields[i].key).value))))
        else None
      case _ => Some(v)
  }

  /** One field of an edited object, unmasked. */
  function UnmaskField(fields: seq<Field>, i: nat, original: Option<Json>): Option<Json>
    requires i < |fields|
  {
    Unmask(fields[i].value, Follow(original, Key(fields[i].key)), fields[i].key)
  }

  // The round trip

  /** Saving the masked settings unedited keeps every value of the source. */
  lemma {:induction false} RoundTrip(v: Json, key: string)
    requires WellFormed(v)
    ensures Unmask(Mask(v, key), Some(v), key) == Some(v)
  {
    match v
    case Arr(items) =>
      var masked := Mask(v, key).items;
      forall i | 0 <= i < |items|
        ensures Unmask(masked[i], Follow(Some(v), Index(i)), key) == Some(items[i])
      {
        RoundTrip(items[i], key);
      }
      UnmaskItems(masked, items, Some(v), key);
    case Obj(fields) =>
      var masked := Mask(v, key).fields;
      forall i | 0 <= i < |fields|
        ensures masked[i].key == fields[i].key && UnmaskField(masked, i, Some(v)) == Some(fields[i].value)
      {
        FindUnique(fields, i);
        RoundTrip(fields[i].value, fields[i].key);
      }
      UnmaskFields(masked, fields, Some(v), key);
    case _ =>
  }

  lemma UnmaskItems(items: seq<Json>, saved: seq<Json>, original: Option<Json>, key: string)
    requires |saved| == |items|
    requires forall i | 0 <= i < |items| :: Unmask(items[i], Follow(original, Index(i)), key) == Some(saved[i])
    ensures Unmask(Arr(items), original, key) == Some(Arr(saved))
  {
    var result := Unmask(Arr(items), original, key);
    assert result.Some?;
    assert result.value.items == saved;
  }

  lemma UnmaskFields(fields: seq<Field>, saved: seq<Field>, original: Option<Json>, key: string)
    requires |saved| == |fields|
    requires forall i | 0 <= i < |fields| ::
               fields[i].key == saved[i].key && UnmaskField(fields, i, original) == Some(saved[i].value)
    ensures Unmask(Obj(fields), original, key) == Some(Obj(saved))
  {
    var result := Unmask(Obj(fields), original, key);
    assert result.Some?;
    forall i | 0 <= i < |fields|
      ensures result.value.fields[i] == saved[i]
    {
      assert UnmaskField(fields, i, original) == Some(saved[i].value);
    }
    assert result.value.fields == saved;
  }

  // What masking hides

  /** Two trees that differ in nothing but the text of non-empty secrets. */
  ghost predicate Alike(v: Json, w: Json, key: string) {
    match (v, w)
    case (Arr(a), Arr(b)) => |a| == |b| && forall i | 0 <= i < |a| :: Alike(a[i], b[i], key)
    case (Obj(a), Obj(b)) =>
      |a| == |b| && forall i | 0 <= i < |a| :: a[i].key == b[i].key && Alike(a[i].value, b[i].value, a[i].key)
    case (Str(a), Str(b)) =>
      if IsSecret(key) then (a == "" <==> b == "") else a == b
    case _ => v == w
  }

  /** The editor sees the same exactly for trees that are alike: no more of a secret shows than that it is set. */
  lemma {:induction false} MaskShowsOnlyAlike(v: Json, w: Json, key: string)
    ensures Mask(v, key) == Mask(w, key) <==> Alike(v, w, key)
  {
    match (v, w)
    case (Arr(a), Arr(b)) =>
      forall i | 0 <= i < |a| && i < |b|
        ensures Mask(a[i], key) == Mask(b[i], key) <==> Alike(a[i], b[i], key)
      {
        MaskShowsOnlyAlike(a[i], b[i], key);
      }
      MaskedItems(a, b, key);
    case (Obj(a), Obj(b)) =>
      forall i | 0 <= i < |a| && i < |b|
        ensures Mask(a[i].value, a[i].key) == Mask(b[i].value, a[i].key) <==> Alike(a[i].value, b[i].value, a[i].key)
      {
        MaskShowsOnlyAlike(a[i].value, b[i].value, a[i].key);
      }
      MaskedFields(a, b, key);
    case _ =>
  }

  lemma MaskedItems(a: seq<Json>, b: seq<Json>, key: string)
    ensures Mask(Arr(a), key) == Mask(Arr(b), key) <==>
            |a| == |b| && forall i | 0 <= i < |a| :: Mask(a[i], key) == Mask(b[i], key)
  {
    var x, y := Mask(Arr(a), key).items, Mask(Arr(b), key).items;
    assert |x| == |a| && forall i | 0 <= i < |a| :: x[i] == Mask(a[i], key);
    assert |y| == |b| && forall i | 0 <= i < |b| :: y[i] == Mask(b[i], key);
    assert x == y <==> |a| == |b| && forall i | 0 <= i < |a| :: x[i] == y[i];
  }

  lemma MaskedFields(a: seq<Field>, b: seq<Field>, key: string)
    ensures Mask(Obj(a), key) == Mask(Obj(b), key) <==>
            |a| == |b| && forall i | 0 <= i < |a| ::
              a[i].key == b[i].key && Mask(a[i].value, a[i].key) == Mask(b[i].value, a[i].key)
  {
    var x, y := Mask(Obj(a), key).fields, Mask(Obj(b), key).fields;
    assert |x| == |a| && forall i | 0 <= i < |a| :: x[i] == Field(a[i].key, Mask(a[i].value, a[i].key));
    assert |y| == |b| && forall i | 0 <= i < |b| :: y[i] == Field(b[i].key, Mask(b[i].value, b[i].key));
    assert x == y <==> |a| == |b| && forall i | 0 <= i < |a| :: x[i] == y[i];
  }

  // What saving an edited tree keeps

  /** A placeholder under a secret key, at this path of an edited tree. */
  predicate Placeholder(v: Json, key: string, path: seq<Step>) {
    At(v, path) == Some(Str(MASKED)) && IsSecret(KeyAt(key, path))
  }

  predicate Backed(original: Option<Json>, path: seq<Step>) {
    FollowAll(original, path).Some? && FollowAll(original, path).value.Str?
  }

  /** The same kind of value: the same leaf, or a container with the same keys or as many items. */
  predicate SameNode(v: Json, w: Json) {
    match (v, w)
    case (Arr(a), Arr(b)) => |a| == |b|
    case (Obj(a), Obj(b)) => |a| == |b| && forall i | 0 <= i < |a| :: a[i].key == b[i].key
    case _ => v == w
  }

  lemma {:induction false} SavedFind(fields: seq<Field>, saved: seq<Field>, original: Option<Json>, key: string)
    requires |saved| == |fields|
    requires forall i | 0 <= i < |fields| :: saved[i].key == fields[i].key &&
               Some(saved[i].value) == Unmask(fields[i].value, Follow(original, Key(fields[i].key)), fields[i].key)
    ensures match Find(fields, key)
            case Some(value) =>
              Find(saved, key) == Unmask(value, Follow(original, Key(key)), key) && Find(saved, key).Some?
            case None => Find(saved, key).None?
  {
    if fields != [] && fields[0].key != key {
      SavedFind(fields[1..], saved[1..], original, key);
    }
  }

  /** At every path, the saved tree has the original's secret for a placeholder and the edited value for all else. */
  lemma {:induction false} SavedAt(v: Json, original: Option<Json>, key: string, path: seq<Step>)
    requires Unmask(v, original, key).Some? && At(v, path).Some?
    ensures At(Unmask(v, original, key).value, path).Some?
    ensures var saved := At(Unmask(v, original, key).value, path).value;
            if Placeholder(v, key, path) then Backed(original, path) && Some(saved) == FollowAll(original, path)
            else SameNode(At(v, path).value, saved)
    decreases |path|
  {
    if path != [] {
      match (v, path[0])
      case (Obj(fields), Key(k)) =>
        var saved := Unmask(v, original, key).value.fields;
        assert forall i | 0 <= i < |fields| :: UnmaskField(fields, i, original).Some?;
        SavedFind(fields, saved, original, k);
        SavedAt(Find(fields, k).value, Follow(original, Key(k)), k, path[1..]);
      case (Arr(items), Index(i)) =>
        SavedAt(items[i], Follow(original, Index(i)), key, path[1..]);
    }
  }

  /** A tree that is refused has a placeholder where the original has no secret. */
  lemma {:induction false} Unbacked(v: Json, original: Option<Json>, key: string) returns (path: seq<Step>)
    requires WellFormed(v) && Unmask(v, original, key).None?
    ensures Placeholder(v, key, path) && !Backed(original, path)
  {
    if v == Str(MASKED) && IsSecret(key) {
      return [];
    }
    match v
    case Arr(items) =>
      var i :| 0 <= i < |items| && Unmask(items[i], Follow(original, Index(i)), key).None?;
      var rest := Unbacked(items[i], Follow(original, Index(i)), key);
      path := [Index(i)] + rest;
      assert path[1..] == rest;
    case Obj(fields) =>
      var i :| 0 <= i < |fields| && Unmask(fields[i].value, Follow(original, Key(fields[i].key)), fields[i].key).None?;
      FindUnique(fields, i);
      var rest := Unbacked(fields[i].value, Follow(original, Key(fields[i].key)), fields[i].key);
      path := [Key(fields[i].key)] + rest;
      assert path[1..] == rest;
  }

  /** An edited tree is saved exactly when every placeholder it keeps stands for a secret of the original. */
  lemma SavedWhenBacked(v: Json, original: Option<Json>, key: string)
    requires WellFormed(v)
    ensures Unmask(v, original, key).Some? <==> forall path :: Placeholder(v, key, path) ==> Backed(original, path)
  {
    if Unmask(v, original, key).Some? {
      forall path | Placeholder(v, key, path)
        ensures Backed(original, path)
      {
        SavedAt(v, original, key, path);
      }
    } else {
      var path := Unbacked(v, original, key);
    }
  }
}
