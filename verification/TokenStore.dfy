/**
 The token store: a list of tokens that every operation loads, changes in one place and saves.
 Loading and saving can fail; the operation then changes nothing.
 */
module TokenStore {
  import opened Wrappers

  /** The fields of a token that decisions depend on; an absent expiry is None. */
  datatype APIToken = APIToken(
    id: string, name: string, hash: string, prefix: string, scope: string, enabled: bool, expiresAt: Option<int>)

  datatype StoreError = DuplicateName | NotFound | IOError

  /** The position of the first token with this id, or the length of the list. */
  function Find(tokens: seq<APIToken>, id: string): (i: nat)
    ensures i <= |tokens|
    ensures i < |tokens| ==> tokens[i].id == id
    ensures forall j :: 0 <= j < i ==> tokens[j].id != id
  {
    if tokens == [] || tokens[0].id == id then 0 else 1 + Find(tokens[1..], id)
  }

  predicate NameTaken(tokens: seq<APIToken>, name: string, exceptId: string) {
    exists t :: t in tokens && t.id != exceptId && t.name == name
  }

  predicate HasName(tokens: seq<APIToken>, name: string) {
    exists t :: t in tokens && t.name == name
  }

  type Outcome = Result<seq<APIToken>, StoreError>

  function Created(tokens: seq<APIToken>, t: APIToken): Outcome {
    if HasName(tokens, t.name) then Err(DuplicateName) else Ok(tokens + [t])
  }

  function Updated(tokens: seq<APIToken>, t: APIToken): Outcome {
    var i := Find(tokens, t.id);
    if i == |tokens| then Err(NotFound)
    else if tokens[i].name != t.name && NameTaken(tokens, t.name, t.id) then Err(DuplicateName)
    else Ok(tokens[i := t])
  }

  function SoftDeleted(tokens: seq<APIToken>, id: string): Outcome {
    var i := Find(tokens, id);
    if i == |tokens| then Err(NotFound) else Ok(tokens[i := tokens[i].(enabled := false)])
  }

  /** What an operation that ends in `outcome` leaves in the file when the save works or not. */
  function Saved(tokens: seq<APIToken>, outcome: Outcome, saves: bool): seq<APIToken> {
    if outcome.Ok? && saves then outcome.value else tokens
  }

  function ErrorOf(outcome: Outcome, saves: bool): Option<StoreError> {
    if outcome.Err? then Some(outcome.error) else if saves then None else Some(IOError)
  }

  class Store {
    var tokens: seq<APIToken>

    constructor (tokens: seq<APIToken>)
      ensures this.tokens == tokens
    {
      this.tokens := tokens;
    }

    method Create(t: APIToken, saves: bool) returns (error: Option<StoreError>)
      modifies this
      ensures tokens == Saved(old(tokens), Created(old(tokens), t), saves)
      ensures error == ErrorOf(Created(old(tokens), t), saves)
    {
      for i := 0 to |tokens|
        invariant tokens == old(tokens)
        invariant forall j :: 0 <= j < i ==> tokens[j].name != t.name
      {
        if tokens[i].name == t.name {
          assert tokens[i] in tokens;
          return Some(DuplicateName);
        }
      }
      if !saves {
        return Some(IOError);
      }
      tokens := tokens + [t];
      error := None;
    }

    /** `loads` tells whether the token file can be read. */
    method GetByID(id: string, loads: bool) returns (r: Result<APIToken, StoreError>)
      ensures r.Ok? <==> loads && exists t :: t in tokens && t.id == id
      ensures r.Ok? ==> Find(tokens, id) < |tokens| && r.value == tokens[Find(tokens, id)]
      ensures r.Err? ==> r.error == if loads then NotFound else IOError
    {
      if !loads {
        return Err(IOError);
      }
      for i := 0 to |tokens|
        invariant forall j :: 0 <= j < i ==> tokens[j].id != id
      {
        if tokens[i].id == id {
          assert tokens[i] in tokens;
          return Ok(tokens[i]);
        }
      }
      r := Err(NotFound);
    }

    method Update(t: APIToken, saves: bool) returns (error: Option<StoreError>)
      modifies this
      ensures tokens == Saved(old(tokens), Updated(old(tokens), t), saves)
      ensures error == ErrorOf(Updated(old(tokens), t), saves)
    {
      for i := 0 to |tokens|
        invariant tokens == old(tokens)
        invariant forall j :: 0 <= j < i ==> tokens[j].id != t.id
      {
        if tokens[i].id == t.id {
          if tokens[i].name != t.name {
            var taken := IsNameTaken(t.name, t.id);
            if taken {
              return Some(DuplicateName);
            }
          }
          if !saves {
            return Some(IOError);
          }
          tokens := tokens[i := t];
          return None;
        }
      }
      error := Some(NotFound);
    }

    method IsNameTaken(name: string, exceptId: string) returns (taken: bool)
      ensures taken == NameTaken(tokens, name, exceptId)
    {
      for i := 0 to |tokens|
        invariant forall j :: 0 <= j < i ==> tokens[j].id == exceptId || tokens[j].name != name
      {
        if tokens[i].id != exceptId && tokens[i].name == name {
          assert tokens[i] in tokens;
          return true;
        }
      }
      taken := false;
    }

    method SoftDelete(id: string, saves: bool) returns (error: Option<StoreError>)
      modifies this
      ensures tokens == Saved(old(tokens), SoftDeleted(old(tokens), id), saves)
      ensures error == ErrorOf(SoftDeleted(old(tokens), id), saves)
    {
      for i := 0 to |tokens|
        invariant tokens == old(tokens)
        invariant forall j :: 0 <= j < i ==> tokens[j].id != id
      {
        if tokens[i].id == id {
          if !saves {
            return Some(IOError);
          }
          tokens := tokens[i := tokens[i].(enabled := false)];
          return None;
        }
      }
      error := Some(NotFound);
    }
  }

  // ---------- what every operation keeps ----------

  predicate UniqueIds(tokens: seq<APIToken>) {
    forall i, j :: 0 <= i < j < |tokens| ==> tokens[i].id != tokens[j].id
  }

  predicate UniqueNames(tokens: seq<APIToken>) {
    forall i, j :: 0 <= i < j < |tokens| ==> tokens[i].name != tokens[j].name
  }

  /** Names stay unique over Create, Update and SoftDelete; so do ids, if new ones are fresh. */
  lemma OperationsKeepNamesUnique(tokens: seq<APIToken>, t: APIToken, id: string)
    requires UniqueIds(tokens) && UniqueNames(tokens)
    ensures Created(tokens, t).Ok? ==> UniqueNames(Created(tokens, t).value)
    ensures Updated(tokens, t).Ok? ==> UniqueNames(Updated(tokens, t).value)
    ensures SoftDeleted(tokens, id).Ok? ==> UniqueNames(SoftDeleted(tokens, id).value)
  {
  }

  lemma OperationsKeepIdsUnique(tokens: seq<APIToken>, t: APIToken, id: string)
    requires UniqueIds(tokens)
    ensures Created(tokens, t).Ok? && Find(tokens, t.id) == |tokens| ==> UniqueIds(Created(tokens, t).value)
    ensures Updated(tokens, t).Ok? ==> UniqueIds(Updated(tokens, t).value)
    ensures SoftDeleted(tokens, id).Ok? ==> UniqueIds(SoftDeleted(tokens, id).value)
  {
  }

  // ---------- what each operation does ----------

  /** Creating fails iff a token has the name, and else appends. */
  lemma CreatedExactly(tokens: seq<APIToken>, t: APIToken)
    ensures Created(tokens, t) ==
      if exists i :: 0 <= i < |tokens| && tokens[i].name == t.name then Err(DuplicateName) else Ok(tokens + [t])
  {
    if HasName(tokens, t.name) {
      var u :| u in tokens && u.name == t.name;
      assert exists i :: 0 <= i < |tokens| && tokens[i] == u;
    }
    if i :| 0 <= i < |tokens| && tokens[i].name == t.name { assert tokens[i] in tokens; }
  }

  /** Token i is the first with this id. */
  predicate IsFirst(tokens: seq<APIToken>, id: string, i: nat) {
    i < |tokens| && tokens[i].id == id && forall j :: 0 <= j < i ==> tokens[j].id != id
  }

  /**
   Updating replaces the first token with the id, unless its name changes to one that a token
   with another id has.
   */
  lemma UpdatedExactly(tokens: seq<APIToken>, t: APIToken, i: nat)
    requires IsFirst(tokens, t.id, i)
    ensures Updated(tokens, t) ==
      if tokens[i].name != t.name && (exists j :: 0 <= j < |tokens| && tokens[j].id != t.id && tokens[j].name == t.name)
      then Err(DuplicateName) else Ok(tokens[i := t])
  {
    if NameTaken(tokens, t.name, t.id) {
      var u :| u in tokens && u.id != t.id && u.name == t.name;
      assert exists j :: 0 <= j < |tokens| && tokens[j] == u;
    }
    if j :| 0 <= j < |tokens| && tokens[j].id != t.id && tokens[j].name == t.name { assert tokens[j] in tokens; }
  }

  /** Deleting disables the first token with the id and keeps everything else of it. */
  lemma SoftDeletedExactly(tokens: seq<APIToken>, id: string, i: nat)
    requires IsFirst(tokens, id, i)
    ensures SoftDeleted(tokens, id) == Ok(tokens[i := tokens[i].(enabled := false)])
  {
  }

  /** Without a token of the id both fail. */
  lemma NotThere(tokens: seq<APIToken>, t: APIToken)
    requires forall i :: 0 <= i < |tokens| ==> tokens[i].id != t.id
    ensures Updated(tokens, t) == Err(NotFound) && SoftDeleted(tokens, t.id) == Err(NotFound)
  {
  }

  /** A failed operation or a failed save leaves the file alone and reports the first error. */
  lemma SavedExactly(tokens: seq<APIToken>, outcome: Outcome, saves: bool)
    ensures Saved(tokens, outcome, saves) ==
      (match outcome case Ok(ts) => if saves then ts else tokens case Err(_) => tokens)
    ensures ErrorOf(outcome, saves) ==
      match outcome case Err(e) => Some(e) case Ok(_) => if saves then None else Some(IOError)
  {
  }
}
