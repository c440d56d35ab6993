/** The character composable (src/composables/useCharacter.ts): form validation, the retry loop
    around a store call, and `createCharacter`, which validates, retries the character store's
    `createCharacter` and reports through `isLoading`, `error` and `currentOperation`. */
module UseCharacter {
  import opened Wrappers
  import opened Types
  import Text
  import CharacterStore

  // ---------------- validateData ----------------

  const NameRequired := "角色名称不能为空"
  const NameTooLong := "角色名称不能超过50个字符"
  const IdentityRequired := "角色身份不能为空"
  const MaxNameLength := 50

  /** `!s || s.trim() === ''`. */
  predicate Blank(s: string) {
    Text.Trim(s) == ""
  }

  /** `validateData`: the first failing check's message, or None (`null`) when the form is
      acceptable. The length limit counts UTF-16 code units of the untrimmed name. */
  function ValidateData(data: CharacterFormData): Option<string> {
    if Blank(data.name) then Some(NameRequired)
    else if Text.Utf16Length(data.name) > MaxNameLength then Some(NameTooLong)
    else if Blank(data.identity) then Some(IdentityRequired)
    else None
  }

  /** Some character of `s` is not whitespace. */
  predicate HasText(s: string) {
    exists i :: 0 <= i < |s| && !Text.IsJsWhitespace(s[i])
  }

  /** Each outcome of the validation in terms of the form itself: the name is checked before its
      length, and both before the identity. */
  lemma ValidateDataIff(data: CharacterFormData)
    ensures ValidateData(data) == None <==>
      HasText(data.name) && Text.Utf16Length(data.name) <= MaxNameLength && HasText(data.identity)
    ensures ValidateData(data) == Some(NameRequired) <==> !HasText(data.name)
    ensures ValidateData(data) == Some(NameTooLong) <==>
      HasText(data.name) && Text.Utf16Length(data.name) > MaxNameLength
    ensures ValidateData(data) == Some(IdentityRequired) <==>
      HasText(data.name) && Text.Utf16Length(data.name) <= MaxNameLength && !HasText(data.identity)
  {
    Text.TrimEmptyIff(data.name);
    Text.TrimEmptyIff(data.identity);
  }

  /** For a name without characters above U+FFFF the limit is on its number of characters: 50
      pass, 51 do not. */
  lemma NameLimitOnBasicPlane(data: CharacterFormData)
    requires forall i :: 0 <= i < |data.name| ==> data.name[i] as int <= 0xFFFF
    requires HasText(data.name)
    ensures ValidateData(data) == Some(NameTooLong) <==> |data.name| > MaxNameLength
  {
    Text.Utf16LengthBounds(data.name);
    ValidateDataIff(data);
  }

  // ---------------- withRetry ----------------

  /** The message of `err instanceof Error ? err : new Error(String(err))`. */
  function Message(t: Thrown): string {
    match t
    case ErrorObject(m) => m
    case OtherValue(text) => text
  }

  /** What one call of the retried function does. */
  datatype Attempt<T> = Succeeds(value: T) | Throws(thrown: Thrown)

  /** What `withRetry` does: resolve with a value, or reject with its last error, which is
      `null` (None) when no attempt was made. */
  datatype RetryResult<T> = Returned(value: T) | Rejected(lastError: Option<string>)

  /** The first attempt from `from` on, below `retries`, that succeeds. */
  function FirstSuccess<T>(fn: nat -> Attempt<T>, from: nat, retries: int): (r: Option<nat>)
    ensures r.Some? ==> from <= r.value < retries && fn(r.value).Succeeds?
    ensures r.Some? ==> forall j: nat :: from <= j < r.value ==> fn(j).Throws?
    ensures r.None? ==> forall j: nat :: from <= j < retries ==> fn(j).Throws?
    decreases retries - from
  {
    if from >= retries then None
    else if fn(from).Succeeds? then Some(from)
    else FirstSuccess(fn, from + 1, retries)
  }

  /** `withRetry(fn, retries)`. `fn(i)` is what the `i`-th call does; the out-parameters report
      how many calls were made and the `setTimeout` waits between them, `1000 * (i + 1)` ms after
      the failed attempt `i`. The first success is returned; otherwise all `retries` attempts are
      made and the last error is thrown. No wait follows the last attempt. */
  method WithRetry<T>(fn: nat -> Attempt<T>, retries: int) returns (r: RetryResult<T>, calls: nat, delays: seq<nat>)
    ensures FirstSuccess(fn, 0, retries).Some? ==>
      var k := FirstSuccess(fn, 0, retries).value;
      r == Returned(fn(k).value) && calls == k + 1
    ensures FirstSuccess(fn, 0, retries).None? ==>
      && r == Rejected(if retries <= 0 then None else Some(Message(fn(retries - 1).thrown)))
      && calls == (if retries <= 0 then 0 else retries)
    ensures |delays| == (if calls == 0 then 0 else calls - 1)
    ensures forall j :: 0 <= j < |delays| ==> delays[j] == 1000 * (j + 1)
  {
    var lastError: Option<string> := None;
    var i: nat := 0;
    calls := 0;
    delays := [];
    while i < retries
      invariant retries > 0 ==> i <= retries
      invariant retries <= 0 ==> i == 0
      invariant calls == i
      invariant forall j: nat :: j < i ==> fn(j).Throws?
      invariant lastError == if i == 0 then None else Some(Message(fn(i - 1).thrown))
      invariant |delays| == (if i == 0 || i < retries then i else i - 1)
      invariant forall j :: 0 <= j < |delays| ==> delays[j] == 1000 * (j + 1)
    {
      calls := calls + 1;
      var a := fn(i);
      if a.Succeeds? {
        assert FirstSuccess(fn, 0, retries) == Some(i) by {
          FirstSuccessAt(fn, 0, retries, i);
        }
        return Returned(a.value), calls, delays;
      }
      lastError := Some(Message(a.thrown));
      if i < retries - 1 {
        delays := delays + [1000 * (i + 1)];
      }
      i := i + 1;
    }
    r := Rejected(lastError);
  }

  /** An attempt that succeeds after only failures is the first success. */
  lemma FirstSuccessAt<T>(fn: nat -> Attempt<T>, from: nat, retries: int, k: nat)
    requires from <= k < retries && fn(k).Succeeds?
    requires forall j: nat :: from <= j < k ==> fn(j).Throws?
    ensures FirstSuccess(fn, from, retries) == Some(k)
  {
  }

  // ---------------- createCharacter ----------------

  /** The attempt of the character store's `createCharacter` whose database write either
      succeeds (None) or throws an `Error` with the given message. */
  function StoreAttempts(writes: nat -> Option<string>): nat -> Attempt<()> {
    (i: nat) => if writes(i).None? then Succeeds(()) else Throws(ErrorObject(writes(i).value))
  }

  /** The `currentOperation` label of `createCharacter`. */
  const CreateOperation := "create"

  /** The message `createCharacter` records when every attempt failed. */
  function FailureMessage(last: Option<string>): string {
    last.GetOr("创建角色失败")
  }

  /** The composable's own state and the store it calls. */
  class Composable {
    var isLoading: bool
    var error: Option<string>
    var currentOperation: string
    var cancelToken: nat
    const autoRetry: int
    const store: CharacterStore.Store

    /** `useCharacter(options)`: `autoRetry` defaults to 3. */
    constructor(store: CharacterStore.Store, autoRetry: Option<int>)
      ensures this.store == store && this.autoRetry == autoRetry.GetOr(3)
      ensures !isLoading && error == None && currentOperation == "" && cancelToken == 0
    {
      this.store := store;
      this.autoRetry := autoRetry.GetOr(3);
      isLoading := false;
      error := None;
      currentOperation := "";
      cancelToken := 0;
    }

    /** `createCharacter`. `writes(i)` says whether the store's database write succeeds on the
        `i`-th attempt; `freshId` and `now` are the id and clock value the successful attempt
        draws. Calls are sequential here, so the operation is never superseded. */
    method CreateCharacter(data: CharacterFormData, projectId: Id, writes: nat -> Option<string>, freshId: Id, now: int)
      returns (r: Option<Character>)
      modifies this, store
      ensures cancelToken == old(cancelToken) + 1
      ensures store.currentCharacter == old(store.currentCharacter)
      ensures currentOperation == if ValidateData(data).Some? then CreateOperation else ""
      ensures ValidateData(data).Some? ==> r == None && error == ValidateData(data) && !isLoading
      ensures ValidateData(data).Some? ==> store.characters == old(store.characters)
      ensures ValidateData(data).None? && FirstSuccess(StoreAttempts(writes), 0, autoRetry).Some? ==>
        && r == Some(CharacterStore.NewCharacter(data, projectId, freshId, now))
        && store.characters == old(store.characters) + [r.value]
        && error == None && !isLoading
      ensures ValidateData(data).None? && FirstSuccess(StoreAttempts(writes), 0, autoRetry).None? ==>
        && r == None
        && error == Some(FailureMessage(if autoRetry <= 0 then None else writes(autoRetry - 1)))
        && store.characters == old(store.characters) && !isLoading
    {
      cancelToken := cancelToken + 1;
      currentOperation := CreateOperation;
      isLoading := true;
      error := None;
      var invalid := ValidateData(data);
      if invalid.Some? {
        error := invalid;
        isLoading := false;
        r := None;
      } else {
        r := CreateValidated(data, projectId, writes, freshId, now);
      }
    }

    /** The `try` part of `createCharacter`, once the form is valid: retry the store call, keep
        the character or record the error, then reset the loading flags. */
    method CreateValidated(data: CharacterFormData, projectId: Id, writes: nat -> Option<string>, freshId: Id, now: int)
      returns (r: Option<Character>)
      modifies this, store
      ensures cancelToken == old(cancelToken)
      ensures store.currentCharacter == old(store.currentCharacter)
      ensures !isLoading && currentOperation == ""
      ensures FirstSuccess(StoreAttempts(writes), 0, autoRetry).Some? ==>
        && r == Some(CharacterStore.NewCharacter(data, projectId, freshId, now))
        && store.characters == old(store.characters) + [r.value]
        && error == old(error)
      ensures FirstSuccess(StoreAttempts(writes), 0, autoRetry).None? ==>
        && r == None
        && error == Some(FailureMessage(if autoRetry <= 0 then None else writes(autoRetry - 1)))
        && store.characters == old(store.characters)
    {
      var result, _, _ := WithRetry(StoreAttempts(writes), autoRetry);
      if result.Returned? {
        var created := store.CreateCharacter(data, projectId, freshId, now, true);
        r := Some(created.value);
      } else {
        error := Some(FailureMessage(result.lastError));
        r := None;
      }
      isLoading := false;
      currentOperation := "";
    }
  }
}
