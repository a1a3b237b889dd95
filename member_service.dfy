/**
 * Member registration. The repository is an in-memory store from generated id to member;
 * the service rejects a second member with a name already stored, renames members in place,
 * and fails on lookups of an id that is not stored.
 */
module MemberService {
  import opened Wrappers
  import opened Domain

  /** `IllegalState`: a member of that name already exists. `NoSuchElement`: the id is not stored. */
  datatype MemberError = IllegalState | NoSuchElement

  /** Some stored member is called `name`. */
  predicate NameTaken(members: map<int, Member>, name: string)
  {
    exists id :: id in members && members[id].name == name
  }

  /** No two stored members share a name. */
  ghost predicate NamesUnique(members: map<int, Member>)
  {
    forall i, j :: i in members && j in members && members[i].name == members[j].name ==> i == j
  }

  /** The store after the member `id` is renamed to `name`; all else stays. */
  function Renamed(members: map<int, Member>, id: int, name: string): (r: map<int, Member>)
    requires id in members
    ensures r.Keys == members.Keys
    ensures r[id].name == name && r[id].id == members[id].id && r[id].address == members[id].address
    ensures forall other :: other in members && other != id ==> r[other] == members[other]
  {
    members[id := members[id].(name := name)]
  }

  /**
   * Storing a member under a fresh id whose name is not taken keeps names unique; this is
   * what the duplicate check in `Join` protects.
   */
  lemma {:induction false} JoinKeepsNamesUnique(members: map<int, Member>, id: int, m: Member)
    requires NamesUnique(members)
    requires id !in members
    requires !NameTaken(members, m.name)
    ensures NamesUnique(members[id := m])
  {
  }

  /**
   * Renaming does not repeat the duplicate check: in every store, renaming a member to the
   * name of another stored member leaves two members with the same name.
   */
  lemma {:induction false} RenameCanDuplicateName(members: map<int, Member>, id: int, other: int)
    requires id in members && other in members && id != other
    ensures NameTaken(Renamed(members, id, members[other].name), members[other].name)
    ensures !NamesUnique(Renamed(members, id, members[other].name))
  {
    var after := Renamed(members, id, members[other].name);
    assert after[id].name == after[other].name;
  }

  /** The member store: members by id, and the sequence that generates the next id. */
  class MemberRepository {
    var members: map<int, Member>
    var sequence: int

    /** Every stored member sits under its own id, and every id was generated before. */
    ghost predicate Valid()
      reads this
    {
      && 1 <= sequence
      && forall id :: id in members ==> members[id].id == id && 1 <= id < sequence
    }

    constructor ()
      ensures Valid() && members == map[]
    {
      members := map[];
      sequence := 1;
    }

    /** Stores `member` under a newly generated id and returns that id. */
    method Save(member: Member) returns (id: int)
      requires Valid()
      modifies this
      ensures Valid()
      ensures id == old(sequence) && id !in old(members)
      ensures members == old(members)[id := member.(id := id)]
      ensures sequence > old(sequence)
    {
      id := sequence;
      members := members[id := member.(id := id)];
      sequence := sequence + 1;
    }

    /** The stored members called `name`: all of them and no other. */
    function FindByName(name: string): (found: set<Member>)
      reads this
      ensures found == {} <==> !NameTaken(members, name)
      ensures forall m :: m in found ==> m.name == name && m in members.Values
      ensures forall id :: id in members && members[id].name == name ==> members[id] in found
    {
      var found := set id | id in members && members[id].name == name :: members[id];
      assert forall id :: id in members && members[id].name == name ==> members[id] in found;
      found
    }

    /** The member stored under `id`, if any. */
    function FindById(id: int): (found: Option<Member>)
      reads this
      ensures found.Some? <==> id in members
      ensures found.Some? ==> found.value == members[id]
    {
      if id in members then Some(members[id]) else None
    }
  }

  /** Member registration, lookup and renaming on top of a `MemberRepository`. */
  class MemberService {
    const memberRepository: MemberRepository

    constructor (memberRepository: MemberRepository)
      ensures this.memberRepository == memberRepository
    {
      this.memberRepository := memberRepository;
    }

    /**
     * Registers `member`: fails with `IllegalState` and stores nothing when its name is
     * taken; otherwise stores it under a new id and returns that id.
     */
    method Join(member: Member) returns (r: Result<int, MemberError>)
      requires memberRepository.Valid()
      modifies memberRepository
      ensures memberRepository.Valid()
      ensures r.Failure? <==> old(NameTaken(memberRepository.members, member.name))
      ensures r.Failure? ==> r.error == IllegalState
      ensures r.Failure? ==> memberRepository.members == old(memberRepository.members)
      ensures r.Success? ==>
        && r.value !in old(memberRepository.members)
        && memberRepository.members == old(memberRepository.members)[r.value := member.(id := r.value)]
        && memberRepository.FindByName(member.name) != {}
      ensures old(NamesUnique(memberRepository.members)) ==> NamesUnique(memberRepository.members)
    {
      var check := ValidateDuplicateMember(member);
      if check.Fail? {
        return Failure(check.error);
      }
      ghost var before := memberRepository.members;
      var id := memberRepository.Save(member);
      assert memberRepository.members[id].name == member.name;
      if NamesUnique(before) {
        JoinKeepsNamesUnique(before, id, member.(id := id));
      }
      r := Success(id);
    }

    /** Fails with `IllegalState` exactly when a stored member already has `member`'s name. */
    method ValidateDuplicateMember(member: Member) returns (outcome: Outcome<MemberError>)
      ensures outcome.Fail? <==> NameTaken(memberRepository.members, member.name)
      ensures outcome.Fail? ==> outcome.error == IllegalState
    {
      var findMembers := memberRepository.FindByName(member.name);
      if findMembers != {} {
        return Fail(IllegalState);
      }
      outcome := Pass;
    }

    /** All stored members, each exactly as it is stored under its id. */
    method FindMembers() returns (all: set<Member>)
      requires memberRepository.Valid()
      ensures forall id :: id in memberRepository.members ==> memberRepository.members[id] in all
      ensures forall m :: m in all ==> m.id in memberRepository.members && memberRepository.members[m.id] == m
    {
      all := set id | id in memberRepository.members :: memberRepository.members[id];
    }

    /** The member stored under `memberId`; fails with `NoSuchElement` when there is none. */
    method FindOne(memberId: int) returns (r: Result<Member, MemberError>)
      requires memberRepository.Valid()
      ensures r.Success? <==> memberId in memberRepository.members
      ensures r.Success? ==> r.value == memberRepository.members[memberId] && r.value.id == memberId
      ensures r.Failure? ==> r.error == NoSuchElement
    {
      var found := memberRepository.FindById(memberId);
      if found.None? {
        return Failure(NoSuchElement);
      }
      r := Success(found.value);
    }

    /**
     * Renames the member stored under `id`, without checking for duplicate names; fails with
     * `NoSuchElement` and changes nothing when `id` is not stored.
     */
    method Update(id: int, name: string) returns (outcome: Outcome<MemberError>)
      requires memberRepository.Valid()
      modifies memberRepository`members
      ensures memberRepository.Valid()
      ensures outcome.Pass? <==> id in old(memberRepository.members)
      ensures outcome.Pass? ==> memberRepository.members == Renamed(old(memberRepository.members), id, name)
      ensures outcome.Fail? ==> outcome.error == NoSuchElement && memberRepository.members == old(memberRepository.members)
    {
      var found := memberRepository.FindById(id);
      if found.None? {
        return Fail(NoSuchElement);
      }
      memberRepository.members := Renamed(memberRepository.members, id, name);
      outcome := Pass;
    }
  }
}
