/**
 * The records of the feature-idea portal: ideas, the employees who submit
 * them, priorities, vote kinds, the creation form and a page of results.
 */
module IdeaTypes {

  datatype Option<T> = None | Some(value: T)

  datatype Result<T, E> = Ok(value: T) | Err(error: E)

  /** The three priority levels an idea can carry. */
  datatype Priority = High | Medium | Low

  /** The two kinds of vote. */
  datatype VoteType = Upvote | Downvote

  /** A read-only reference record: who can submit ideas. */
  datatype Employee = Employee(id: string, name: string, profileImage: string)

  /**
   * One feature proposal. `employeeName` and `employeeImage` are a snapshot
   * of the submitter taken at creation time; the counters only ever grow.
   */
  datatype Idea = Idea(
    id: string,
    summary: string,
    description: string,
    employeeId: string,
    employeeName: string,
    employeeImage: string,
    priority: Priority,
    upvotes: nat,
    downvotes: nat,
    createdAt: string)

  /** What a submitter sends; the priority may be left unset. */
  datatype IdeaFormData = IdeaFormData(
    summary: string,
    description: string,
    employeeId: string,
    priority: Option<Priority>)

  /** One page of the idea list together with the paging figures. */
  datatype PaginatedIdeas = PaginatedIdeas(
    ideas: seq<Idea>,
    totalIdeas: nat,
    totalPages: nat,
    currentPage: int)

  /** Why creating an idea can fail. */
  datatype CreateError = EmployeeNotFound

  /** The spelling of a priority level as it is stored and shown. */
  function PriorityName(p: Priority): (r: string)
    ensures r == "High" <==> p == High
    ensures r == "Medium" <==> p == Medium
    ensures r == "Low" <==> p == Low
  {
    match p
    case High => "High"
    case Medium => "Medium"
    case Low => "Low"
  }
}
