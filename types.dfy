/** The records of the application's domain (src/types/index.ts), as values. Timestamps are the
    integer milliseconds of `Date.now()`; an optional field (`x?: T`) is an Option, None standing for
    an absent key. A `*Patch` datatype is the `Partial<...>` of a record: each present field
    replaces the record's field in a `{ ...record, ...patch }` merge. */
module Types {
  import opened Wrappers

  /** Ids are opaque strings (drawn from `crypto.randomUUID()` in the application). */
  type Id = string

  // ---------------- Outline ----------------

  datatype NodeType = Book | Volume | Chapter | Scene

  datatype NodeStatus = Draft | Writing | Review | Finished

  /** Free-form node metadata. `wordCount` is not declared by the type but is read by the outline
      store's word-count total, so it is part of the record here. */
  datatype NodeMetadata = NodeMetadata(
    summary: Option<string>,
    tags: Option<seq<string>>,
    color: Option<string>,
    deadline: Option<int>,
    wordCount: Option<int>)

  /** The metadata `{}`. */
  const EmptyMetadata := NodeMetadata(None, None, None, None, None)

  datatype OutlineNode = OutlineNode(
    id: Id,
    projectId: Id,
    parentId: Option<Id>,
    nodeType: NodeType,
    title: string,
    order: int,
    expanded: bool,
    status: NodeStatus,
    wordCountGoal: int,
    metadata: NodeMetadata,
    createdAt: int,
    updatedAt: int)

  /** `Partial<OutlineNode>`; `parentId: Some(None)` is an explicit `parentId: null`. */
  datatype OutlineNodePatch = OutlineNodePatch(
    id: Option<Id>,
    projectId: Option<Id>,
    parentId: Option<Option<Id>>,
    nodeType: Option<NodeType>,
    title: Option<string>,
    order: Option<int>,
    expanded: Option<bool>,
    status: Option<NodeStatus>,
    wordCountGoal: Option<int>,
    metadata: Option<NodeMetadata>,
    createdAt: Option<int>,
    updatedAt: Option<int>)

  function NodeIdOf(n: OutlineNode): Id { n.id }

  // ---------------- Characters ----------------

  datatype RelationshipType = Ally | Enemy | Neutral | Family | Romance

  datatype Relationship = Relationship(
    targetId: Id,
    targetName: string,
    relationshipType: RelationshipType,
    value: int,
    notes: string)

  /** A character's emotional state. Every field is optional because the character store stores
      a caller's `Partial<EmotionalState>` as it is when it updates a character; a character
      created by the store has all three. */
  datatype EmotionalState = EmotionalState(
    currentMood: Option<string>,
    relationships: Option<seq<Relationship>>,
    mentalDefense: Option<int>)
  {
    predicate Complete() {
      currentMood.Some? && relationships.Some? && mentalDefense.Some?
    }
  }

  /** A version-history entry (its `snapshot` is not part of this model; histories are only ever
      created empty). */
  datatype CharacterVersion = CharacterVersion(id: string, timestamp: int, reason: string)

  datatype Character = Character(
    id: Id,
    projectId: Id,
    name: string,
    identity: string,
    personality: string,
    currentKnowledge: seq<string>,
    assets: seq<string>,
    emotionalState: EmotionalState,
    history: seq<CharacterVersion>,
    createdAt: int,
    updatedAt: int)

  datatype CharacterFormData = CharacterFormData(
    name: string,
    identity: string,
    personality: string,
    currentKnowledge: Option<seq<string>>,
    assets: Option<seq<string>>,
    emotionalState: Option<EmotionalState>)

  /** `Partial<CharacterFormData>`. */
  datatype CharacterPatch = CharacterPatch(
    name: Option<string>,
    identity: Option<string>,
    personality: Option<string>,
    currentKnowledge: Option<seq<string>>,
    assets: Option<seq<string>>,
    emotionalState: Option<EmotionalState>)

  function CharacterIdOf(c: Character): Id { c.id }

  function CharacterProjectOf(c: Character): Id { c.projectId }

  // ---------------- World rules and factions ----------------

  datatype WorldRule = WorldRule(
    id: Id,
    projectId: Id,
    name: string,
    category: string,
    description: string,
    constraints: seq<string>,
    examples: seq<string>,
    tags: seq<string>,
    createdAt: int,
    updatedAt: int)

  /** `Partial<WorldRule>`. */
  datatype WorldRulePatch = WorldRulePatch(
    id: Option<Id>,
    projectId: Option<Id>,
    name: Option<string>,
    category: Option<string>,
    description: Option<string>,
    constraints: Option<seq<string>>,
    examples: Option<seq<string>>,
    tags: Option<seq<string>>,
    createdAt: Option<int>,
    updatedAt: Option<int>)

  function RuleIdOf(r: WorldRule): Id { r.id }

  function RuleCategoryOf(r: WorldRule): string { r.category }

  datatype FactionRelationType = Ally | Enemy | Neutral | Vassal | Overlord

  datatype FactionRelationship = FactionRelationship(
    factionId: Id,
    factionName: string,
    relationType: FactionRelationType,
    description: string)

  datatype Faction = Faction(
    id: Id,
    projectId: Id,
    name: string,
    ideology: string,
    relationships: seq<FactionRelationship>,
    members: seq<Id>,
    resources: seq<string>,
    createdAt: int,
    updatedAt: int)

  /** `Partial<Faction>`. */
  datatype FactionPatch = FactionPatch(
    id: Option<Id>,
    projectId: Option<Id>,
    name: Option<string>,
    ideology: Option<string>,
    relationships: Option<seq<FactionRelationship>>,
    members: Option<seq<Id>>,
    resources: Option<seq<string>>,
    createdAt: Option<int>,
    updatedAt: Option<int>)

  function FactionIdOf(f: Faction): Id { f.id }

  // ---------------- Errors ----------------

  /** A value a JavaScript call throws: an `Error` with its message, or any other value with its
      `String(...)` text. */
  datatype Thrown = ErrorObject(message: string) | OtherValue(text: string)

  /** What a store action throws: `new Error(message)` for an unknown id, or the error of a
      database write that failed (its content is not modelled). */
  datatype StoreError = NotFound(message: string) | WriteFailed
}
