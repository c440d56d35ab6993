/** The character store (src/stores/domain/characterStore.ts): the character list, its count and
    per-project grouping, and the actions that create, update, delete and select characters. */
module CharacterStore {
  import opened Wrappers
  import opened Types
  import Lists

  // ---------------- Getters ----------------

  /** `charactersCount`. */
  function CharactersCount(characters: seq<Character>): nat {
    |characters|
  }

  /** `charactersByProject`: the characters grouped by project id, each group in list order. */
  function CharactersByProject(characters: seq<Character>): map<Id, seq<Character>> {
    Lists.GroupBy(characters, CharacterProjectOf)
  }

  /** A project has a group exactly when one of its characters is in the list, and the group
      holds exactly that project's characters, in list order. */
  lemma CharactersByProjectGroups(characters: seq<Character>, p: Id)
    ensures p in CharactersByProject(characters) <==> exists i :: 0 <= i < |characters| && characters[i].projectId == p
    ensures p in CharactersByProject(characters) ==>
      CharactersByProject(characters)[p] == Lists.WithKey(characters, CharacterProjectOf, p)
  {
    Lists.GroupByIsFilter(characters, CharacterProjectOf, p);
    var w := Lists.WithKey(characters, CharacterProjectOf, p);
    if w != [] {
      assert w[0] in characters;
    }
  }

  // ---------------- Records built by the actions ----------------

  const DefaultMentalDefense := 50

  /** `{ currentMood: '', relationships: [], mentalDefense: 50, ...given }`: the given fields win,
      the defaults fill the rest, so the result always has all three. */
  function CreatedEmotionalState(given: Option<EmotionalState>): (r: EmotionalState)
    ensures r.Complete()
    ensures given.None? ==> r == EmotionalState(Some(""), Some([]), Some(DefaultMentalDefense))
    ensures given.Some? ==> var g := given.value;
      && (g.currentMood.Some? ==> r.currentMood == g.currentMood)
      && (g.relationships.Some? ==> r.relationships == g.relationships)
      && (g.mentalDefense.Some? ==> r.mentalDefense == g.mentalDefense)
      && (g.currentMood.None? ==> r.currentMood == Some(""))
      && (g.relationships.None? ==> r.relationships == Some([]))
      && (g.mentalDefense.None? ==> r.mentalDefense == Some(DefaultMentalDefense))
  {
    match given
    case None => EmotionalState(Some(""), Some([]), Some(DefaultMentalDefense))
    case Some(g) =>
      EmotionalState(
        Some(g.currentMood.GetOr("")), Some(g.relationships.GetOr([])),
        Some(g.mentalDefense.GetOr(DefaultMentalDefense)))
  }

  /** The character `createCharacter` builds, given the id and clock value it draws. */
  function NewCharacter(data: CharacterFormData, projectId: Id, id: Id, now: int): Character {
    Character(
      id, projectId, data.name, data.identity, data.personality,
      data.currentKnowledge.GetOr([]), data.assets.GetOr([]),
      CreatedEmotionalState(data.emotionalState), [], now, now)
  }

  /** `{ ...character, ...updates, updatedAt: now }`. A given emotional state replaces the stored
      one as it is, missing fields and all. */
  function MergeCharacter(c: Character, u: CharacterPatch, now: int): Character {
    c.(name := u.name.GetOr(c.name), identity := u.identity.GetOr(c.identity),
       personality := u.personality.GetOr(c.personality),
       currentKnowledge := u.currentKnowledge.GetOr(c.currentKnowledge), assets := u.assets.GetOr(c.assets),
       emotionalState := u.emotionalState.GetOr(c.emotionalState), updatedAt := now)
  }

  function IndexOfCharacter(characters: seq<Character>, id: Id): Option<nat> {
    Lists.IndexOfKey(characters, CharacterIdOf, id)
  }

  // ---------------- The store ----------------

  /** The store's state that its actions change. `freshId`, `now` and `writeOk` parameters stand
      for `crypto.randomUUID()`, `Date.now()` and whether the database call succeeds; a failed
      database call throws before the in-memory state is touched. */
  class Store {
    var characters: seq<Character>
    var currentCharacter: Option<Character>

    constructor()
      ensures characters == [] && currentCharacter == None
    {
      characters := [];
      currentCharacter := None;
    }

    /** `createCharacter`: absent lists default to empty, the emotional state is completed with
        defaults, the history starts empty and both timestamps are `now`. */
    method CreateCharacter(data: CharacterFormData, projectId: Id, freshId: Id, now: int, writeOk: bool)
      returns (r: Result<Character, StoreError>)
      modifies this
      ensures currentCharacter == old(currentCharacter)
      ensures !writeOk ==> r == Failure(WriteFailed) && characters == old(characters)
      ensures writeOk ==> r.Success? && characters == old(characters) + [r.value]
      ensures writeOk ==> var c := r.value;
        && c.id == freshId && c.projectId == projectId && c.name == data.name
        && c.identity == data.identity && c.personality == data.personality
        && c.currentKnowledge == data.currentKnowledge.GetOr([]) && c.assets == data.assets.GetOr([])
        && c.emotionalState == CreatedEmotionalState(data.emotionalState)
        && c.history == [] && c.createdAt == now && c.updatedAt == now
    {
      var c := NewCharacter(data, projectId, freshId, now);
      if !writeOk {
        return Failure(WriteFailed);
      }
      characters := characters + [c];
      r := Success(c);
    }

    /** `updateCharacter`: merge into the first character with id `id` and refresh the
        selection. */
    method UpdateCharacter(id: Id, updates: CharacterPatch, now: int, writeOk: bool) returns (r: Outcome<StoreError>)
      modifies this
      ensures IndexOfCharacter(old(characters), id).None? ==>
        && r == Fail(NotFound("Character not found"))
        && characters == old(characters) && currentCharacter == old(currentCharacter)
      ensures IndexOfCharacter(old(characters), id).Some? && !writeOk ==>
        r == Fail(WriteFailed) && characters == old(characters) && currentCharacter == old(currentCharacter)
      ensures IndexOfCharacter(old(characters), id).Some? && writeOk ==>
        var i := IndexOfCharacter(old(characters), id).value;
        var updated := MergeCharacter(old(characters)[i], updates, now);
        && r == Pass
        && characters == old(characters)[i := updated]
        && currentCharacter == (if old(currentCharacter).Some? && old(currentCharacter).value.id == id then Some(updated) else old(currentCharacter))
    {
      var found := IndexOfCharacter(characters, id);
      if found.None? {
        return Fail(NotFound("Character not found"));
      }
      var updated := MergeCharacter(characters[found.value], updates, now);
      if !writeOk {
        return Fail(WriteFailed);
      }
      characters := characters[found.value := updated];
      if currentCharacter.Some? && currentCharacter.value.id == id {
        currentCharacter := Some(updated);
      }
      r := Pass;
    }

    /** `deleteCharacter`: drop every character with id `id` and clear the selection if it had
        it. An unknown id is not an error. */
    method DeleteCharacter(id: Id, writeOk: bool) returns (r: Outcome<StoreError>)
      modifies this
      ensures !writeOk ==> r == Fail(WriteFailed) && characters == old(characters) && currentCharacter == old(currentCharacter)
      ensures writeOk ==> && r == Pass
                          && characters == Lists.WithoutKey(old(characters), CharacterIdOf, id)
                          && currentCharacter == (if old(currentCharacter).Some? && old(currentCharacter).value.id == id then None else old(currentCharacter))
    {
      if !writeOk {
        return Fail(WriteFailed);
      }
      characters := Lists.WithoutKey(characters, CharacterIdOf, id);
      if currentCharacter.Some? && currentCharacter.value.id == id {
        currentCharacter := None;
      }
      r := Pass;
    }

    /** `setCurrentCharacter`. */
    method SetCurrentCharacter(character: Option<Character>)
      modifies this
      ensures currentCharacter == character && characters == old(characters)
    {
      currentCharacter := character;
    }
  }

  // ---------------- What the actions keep ----------------

  /** With unique ids, deleting lowers the count by one when the id is present and leaves it
      alone otherwise. */
  lemma DeleteCharacterCount(characters: seq<Character>, id: Id)
    requires Lists.UniqueKeys(characters, CharacterIdOf)
    ensures CharactersCount(Lists.WithoutKey(characters, CharacterIdOf, id))
         == CharactersCount(characters) - (if IndexOfCharacter(characters, id).Some? then 1 else 0)
  {
    Lists.WithKeySplit(characters, CharacterIdOf, id);
    Lists.WithKeyUnique(characters, CharacterIdOf, id);
  }

  /** A fresh id keeps ids unique. */
  lemma CreateKeepsIdsUnique(characters: seq<Character>, c: Character)
    requires Lists.UniqueKeys(characters, CharacterIdOf)
    requires IndexOfCharacter(characters, c.id).None?
    ensures Lists.UniqueKeys(characters + [c], CharacterIdOf)
  {
    var s := characters + [c];
    forall i, j | 0 <= i < |s| && 0 <= j < |s| && s[i].id == s[j].id ensures i == j {
      if i < |characters| && j < |characters| {
        assert s[i] == characters[i] && s[j] == characters[j];
      }
    }
  }

  /** The form's fields never touch the id, so an update keeps ids unique. */
  lemma UpdateKeepsIdsUnique(characters: seq<Character>, i: nat, u: CharacterPatch, now: int)
    requires Lists.UniqueKeys(characters, CharacterIdOf) && i < |characters|
    ensures Lists.UniqueKeys(characters[i := MergeCharacter(characters[i], u, now)], CharacterIdOf)
  {
    var s := characters[i := MergeCharacter(characters[i], u, now)];
    forall a, b | 0 <= a < |s| && 0 <= b < |s| && s[a].id == s[b].id ensures a == b {
      assert s[a].id == characters[a].id && s[b].id == characters[b].id;
    }
  }

  /** Deleting a character just created with a fresh id gives back the list before the creation. */
  lemma DeleteUndoesCreate(characters: seq<Character>, c: Character)
    requires IndexOfCharacter(characters, c.id).None?
    ensures Lists.WithoutKey(characters + [c], CharacterIdOf, c.id) == characters
  {
    Lists.RemoveAppended(characters, c, CharacterIdOf);
  }

  /** After an update the stored emotional state has all three fields exactly when the update
      either leaves it alone and it had them, or brings a state that has them. */
  lemma UpdateEmotionalStateComplete(c: Character, u: CharacterPatch, now: int)
    ensures MergeCharacter(c, u, now).emotionalState.Complete() <==>
      (u.emotionalState.None? && c.emotionalState.Complete()) || (u.emotionalState.Some? && u.emotionalState.value.Complete())
  {
  }
}
