/**
 * The idea repository of lib/actions/idea-actions.ts. The persisted JSON
 * document of ideas becomes the field `ideas`; each action reads it,
 * computes, and (for create, delete and vote) overwrites it as a whole.
 * The employee list, the fresh id and the creation time are parameters.
 */
module IdeaActions {
  import opened IdeaTypes
  import opened IdeaQuery

  class IdeaStore {
    /** The whole idea collection, newest first by construction. */
    var ideas: seq<Idea>

    constructor (initial: seq<Idea>)
      ensures ideas == initial
    {
      ideas := initial;
    }

    /** `getIdeas`: one page of the search results, sorted by upvotes, with the paging figures. */
    method GetIdeas(page: int, limit: int, search: string) returns (r: PaginatedIdeas)
      requires limit >= 1
      ensures r == IdeaQuery.GetIdeas(ideas, page, limit, search)
    {
      r := IdeaQuery.GetIdeas(ideas, page, limit, search);
    }

    /** `getIdeaById`: the first idea with this id, or `None`. */
    method GetIdeaById(id: string) returns (r: Option<Idea>)
      ensures r == FindById(ideas, id)
      ensures r.None? <==> forall i :: 0 <= i < |ideas| ==> ideas[i].id != id
    {
      r := FindById(ideas, id);
    }

    /**
     * `createIdea`: fails when no employee has the form's `employeeId`;
     * otherwise prepends the new idea built from the form and the employee.
     */
    method CreateIdea(employees: seq<Employee>, form: IdeaFormData, newId: string, createdAt: string)
      returns (r: Result<Idea, CreateError>)
      modifies this
      ensures r.Err? <==> forall i :: 0 <= i < |employees| ==> employees[i].id != form.employeeId
      ensures r.Err? ==> r.error == EmployeeNotFound && ideas == old(ideas)
      ensures r.Ok? ==> ideas == [r.value] + old(ideas)
      ensures r.Ok? ==>
        var employee := FindEmployee(employees, form.employeeId).value;
        && r.value.id == newId
        && r.value.summary == form.summary
        && r.value.description == form.description
        && r.value.employeeId == form.employeeId
        && r.value.employeeName == employee.name
        && r.value.employeeImage == employee.profileImage
        && r.value.priority == (if form.priority.None? then Low else form.priority.value)
        && r.value.upvotes == 0
        && r.value.downvotes == 0
        && r.value.createdAt == createdAt
      ensures r.Ok? && UniqueIds(old(ideas)) && FindIndex(old(ideas), newId).None? ==> UniqueIds(ideas)
    {
      var found := FindEmployee(employees, form.employeeId);
      if found.None? {
        return Err(EmployeeNotFound);
      }
      var idea := NewIdea(form, found.value, newId, createdAt);
      UniqueIdsCons(idea, ideas);
      ideas := [idea] + ideas;
      r := Ok(idea);
    }

    /**
     * `deleteIdea`: removes every idea with this id. Reports `false`, and
     * leaves the collection alone, when the length did not change.
     */
    method DeleteIdea(id: string) returns (found: bool)
      modifies this
      ensures found <==> exists i :: 0 <= i < |old(ideas)| && old(ideas)[i].id == id
      ensures !found ==> ideas == old(ideas)
      ensures found ==> ideas == RemoveById(old(ideas), id)
      ensures UniqueIds(old(ideas)) ==> UniqueIds(ideas)
      ensures found && UniqueIds(old(ideas)) ==> |ideas| == |old(ideas)| - 1
    {
      var updated := RemoveById(ideas, id);
      if |updated| == |ideas| {
        return false;
      }
      if UniqueIds(ideas) {
        RemoveByIdKeepsUnique(ideas, id);
        var k := FindIndex(ideas, id).value;
        RemoveByIdDeletesOne(ideas, id, k);
      }
      ideas := updated;
      found := true;
    }

    /**
     * `voteIdea`: adds one vote of the given kind to the first idea with
     * this id, in place; `None`, with nothing changed, when there is none.
     */
    method VoteIdea(id: string, voteType: VoteType) returns (r: Option<Idea>)
      modifies this
      ensures r.None? <==> forall i :: 0 <= i < |old(ideas)| ==> old(ideas)[i].id != id
      ensures r.None? ==> ideas == old(ideas)
      ensures r.Some? ==>
        var k := FindIndex(old(ideas), id).value;
        && ideas == old(ideas)[k := ApplyVote(old(ideas)[k], voteType)]
        && r.value == ideas[k]
        && FirstIdeaWithId(old(ideas), id, k)
      ensures |ideas| == |old(ideas)|
      ensures forall i :: 0 <= i < |ideas| ==> ideas[i].id == old(ideas)[i].id
      ensures UniqueIds(old(ideas)) ==> UniqueIds(ideas)
    {
      var index := FindIndex(ideas, id);
      if index.None? {
        return None;
      }
      var k := index.value;
      var updated := ApplyVote(ideas[k], voteType);
      ideas := ideas[k := updated];
      r := Some(updated);
    }
  }
}
