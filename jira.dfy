/**
 * The Jira issue settings of global tag update requests
 * (`jira_global_tag_v2`) and the older form of the same answer that always
 * describes a full issue record (`jira_global_tag`).
 */
module Jira {
  import opened Wrappers

  /** A nested dictionary of an issue record, such as `{"name": "janedoe"}`. */
  type Fields = map<string, string>

  /** The value of one key of an issue: a nested dictionary, or plain text such as a summary. */
  datatype FieldValue = Entries(fields: Fields) | Text(text: string)

  /** The dictionary of a Jira issue to create. */
  type Issue = map<string, FieldValue>

  /** Where a request goes: a new issue with the given fields, or a comment on the existing issue with this key. */
  datatype Target = NewIssue(issue: Issue) | Comment(key: string)

  /** The answer for a task: the target alone, or the target with a format string for the description (a tuple). */
  datatype JiraAnswer = Plain(target: Target) | Described(target: Target, description: string)

  /** The tasks a global tag update can be requested for. */
  const Tasks: set<string> := {"master", "main", "validation", "online", "prompt", "data", "mc", "analysis"}

  /** A new issue assigned to the user `name`. */
  function AssignedTo(name: string): JiraAnswer {
    Plain(NewIssue(map["assignee" := Entries(map["name" := name])]))
  }

  /**
   * `jira_global_tag_v2`: every known task gets a new issue assigned to the
   * person responsible for it; any other task gets no issue.
   */
  function JiraGlobalTagV2(task: string): (r: Option<JiraAnswer>)
    ensures r.Some? <==> task in Tasks
    ensures r.Some? ==>
      r.value.Plain? && r.value.target.NewIssue? &&
      r.value.target.issue.Keys == {"assignee"} &&
      r.value.target.issue["assignee"].Entries? && r.value.target.issue["assignee"].fields.Keys == {"name"}
  {
    if task == "master" then Some(AssignedTo("depietro"))
    else if task == "main" then Some(AssignedTo("depietro"))
    else if task == "validation" then Some(AssignedTo("jikumar"))
    else if task == "online" then Some(AssignedTo("seokhee"))
    else if task == "prompt" then Some(AssignedTo("mapr"))
    else if task == "data" then Some(AssignedTo("mapr"))
    else if task == "mc" then Some(AssignedTo("amartini"))
    else if task == "analysis" then Some(AssignedTo("fmeier"))
    else None
  }

  /**
   * The issue dictionary an answer stands for before the defaults are
   * added: the description of a tuple is dropped, and a comment on an
   * existing issue becomes a sub-issue (type id `5`) of it.
   */
  function BaseIssue(answer: JiraAnswer): (r: Issue)
    ensures answer.target.NewIssue? ==> r == answer.target.issue
    ensures answer.target.Comment? ==>
      r.Keys == {"parent", "issuetype"} &&
      r["parent"] == Entries(map["key" := answer.target.key]) && r["issuetype"] == Entries(map["id" := "5"])
  {
    match answer.target
    case NewIssue(issue) => issue
    case Comment(key) => map["parent" := Entries(map["key" := key]), "issuetype" := Entries(map["id" := "5"])]
  }

  /**
   * The normalisation of `jira_global_tag`, updating the dictionary in
   * place: a missing `project` becomes the BII project and a missing
   * `issuetype` a Task; every key already present keeps its value.
   */
  method NormaliseIssue(answer: JiraAnswer) returns (issue: Issue)
    ensures issue.Keys == BaseIssue(answer).Keys + {"project", "issuetype"}
    ensures forall k :: k in BaseIssue(answer) ==> issue[k] == BaseIssue(answer)[k]
    ensures "project" !in BaseIssue(answer) ==> issue["project"] == Entries(map["key" := "BII"])
    ensures "issuetype" !in BaseIssue(answer) ==> issue["issuetype"] == Entries(map["name" := "Task"])
  {
    var target := answer.target;
    var result: Issue;
    match target {
      case NewIssue(fields) =>
        result := fields;
      case Comment(key) =>
        result := map["parent" := Entries(map["key" := key]), "issuetype" := Entries(map["id" := "5"])];
    }
    if "project" !in result.Keys {
      result := result["project" := Entries(map["key" := "BII"])];
    }
    if "issuetype" !in result.Keys {
      result := result["issuetype" := Entries(map["name" := "Task"])];
    }
    issue := result;
  }

  /**
   * `jira_global_tag`: no issue exactly when `jira_global_tag_v2` has none;
   * otherwise the assigned issue in the BII project with type Task.
   */
  method JiraGlobalTag(task: string) returns (r: Option<Issue>)
    ensures r.None? <==> task !in Tasks
    ensures r.Some? ==>
      r.value == map[
        "assignee" := JiraGlobalTagV2(task).value.target.issue["assignee"],
        "project" := Entries(map["key" := "BII"]),
        "issuetype" := Entries(map["name" := "Task"])]
  {
    var answer := JiraGlobalTagV2(task);
    if answer.None? {
      return None;
    }
    var issue := NormaliseIssue(answer.value);
    r := Some(issue);
  }
}
