/** The project service: listing a user's projects and the ownership-checked
    create, update and delete. Whether `new URL(s)` accepts a string is the
    parameter `parses`; the id the database gives a new row is `newId`. */
module ProjectService {
  import opened Wrappers
  import opened Exceptions
  import opened Entities
  import UserService
  import Text

  /** `getUserProjects`: never fails; an unknown user has no projects. */
  function GetUserProjects(users: Users, projects: Projects, userId: UserId): (r: Projects)
    ensures userId !in users ==> r == map[]
    ensures userId in users ==> forall pid :: pid in r <==> pid in projects && projects[pid].owner == userId
    ensures forall pid :: pid in r ==> pid in projects && r[pid] == projects[pid]
  {
    match UserService.GetUserById(users, userId)
    case Err(_) => map[]
    case Ok(_) => map pid | pid in projects && projects[pid].owner == userId :: projects[pid]
  }

  /** `validateUrl`: null and "" are accepted without parsing. */
  function ValidateUrl(url: Option<string>, fieldName: string, parses: string -> bool): (r: Option<Exception>)
    ensures r.None? <==> url.None? || url.value == "" || parses(url.value)
    ensures r.Some? ==> r.value == ResponseStatus(BadRequest, "Invalid " + fieldName + " URL format")
  {
    match url
    case Some(u) =>
      if u != "" && !parses(u) then Some(ResponseStatus(BadRequest, "Invalid " + fieldName + " URL format"))
      else None
    case None => None
  }

  /** The URL checks shared by add and update: demo first, then repository. */
  function ValidateUrls(req: ProjectRequest, parses: string -> bool): (r: Option<Exception>)
    ensures ValidateUrl(req.demoUrl, "demo", parses).Some? ==> r == ValidateUrl(req.demoUrl, "demo", parses)
    ensures ValidateUrl(req.demoUrl, "demo", parses).None? ==> r == ValidateUrl(req.repositoryUrl, "repository", parses)
  {
    var demo := ValidateUrl(req.demoUrl, "demo", parses);
    if demo.Some? then demo else ValidateUrl(req.repositoryUrl, "repository", parses)
  }

  /** Bean Validation's `@NotBlank` on the project's name: present, and not
      empty once trimmed. */
  predicate NameAccepted(name: Option<string>) {
    name.Some? && !Text.IsBlank(name.value)
  }

  /** `projectRepository.save`: the persistence provider validates the entity
      before writing it and refuses a project whose name `@NotBlank` rejects
      with Bean Validation's `ConstraintViolationException`, whose message
      (the validator's report) is `report`. The row is stored under `key`,
      the id it was found or created with. */
  function SaveProject(projects: Projects, key: ProjectId, p: Project, report: string): (r: Result<Projects, Exception>)
    ensures r.Ok? <==> NameAccepted(p.name)
    ensures r.Ok? ==> r.value == projects[key := p]
    ensures r.Err? ==> r.error == ConstraintViolation(report)
  {
    if NameAccepted(p.name) then Ok(projects[key := p]) else Err(ConstraintViolation(report))
  }

  /** `addProject`: URLs are checked before the signed-in user is looked up,
      and the save refuses a blank name; otherwise the new row carries the
      request's four fields and the signed-in user as owner. */
  function AddProject(users: Users, projects: Projects, principal: string, req: ProjectRequest,
                      parses: string -> bool, newId: ProjectId, report: string): (r: Result<(Projects, Project), Exception>)
    requires newId !in projects
    ensures ValidateUrls(req, parses).Some? ==> r == Err(ValidateUrls(req, parses).value)
    ensures ValidateUrls(req, parses).None? && UserService.GetCurrentUser(users, principal).Err? ==>
              r == Err(UserService.GetCurrentUser(users, principal).error)
    ensures ValidateUrls(req, parses).None? && UserService.GetCurrentUser(users, principal).Ok? ==>
              (r.Ok? <==> NameAccepted(req.name))
    ensures ValidateUrls(req, parses).None? && UserService.GetCurrentUser(users, principal).Ok? && !NameAccepted(req.name) ==>
              r == Err(ConstraintViolation(report))
    ensures r.Ok? ==> var (after, p) := r.value;
              && p.id == newId && p.name == req.name && p.demoUrl == req.demoUrl
              && p.repositoryUrl == req.repositoryUrl && p.description == req.description
              && p.owner == UserService.GetCurrentUser(users, principal).value.id
              && after == projects[newId := p]
  {
    if ValidateUrls(req, parses).Some? then Err(ValidateUrls(req, parses).value)
    else
      var user :- UserService.GetCurrentUser(users, principal);
      var p := Project(newId, req.name, req.demoUrl, req.repositoryUrl, req.description, user.id);
      var after :- SaveProject(projects, newId, p, report);
      Ok((after, p))
  }

  /** `updateProject`: URL validation, then 404 for a missing project, then
      the user lookup, then 403 when the signed-in user does not own it, then
      the save's check of the name; on success exactly the four editable
      fields change. */
  function UpdateProject(users: Users, projects: Projects, principal: string, projectId: ProjectId,
                         req: ProjectRequest, parses: string -> bool, report: string): (r: Result<(Projects, Project), Exception>)
    ensures ValidateUrls(req, parses).Some? ==> r == Err(ValidateUrls(req, parses).value)
    ensures ValidateUrls(req, parses).None? && projectId !in projects ==> r == Fail(NotFound, "Project not found")
    ensures ValidateUrls(req, parses).None? && projectId in projects && UserService.GetCurrentUser(users, principal).Err? ==>
              r == Err(UserService.GetCurrentUser(users, principal).error)
    ensures ValidateUrls(req, parses).None? && projectId in projects && UserService.GetCurrentUser(users, principal).Ok?
            && projects[projectId].owner != UserService.GetCurrentUser(users, principal).value.id ==>
              r == Fail(Forbidden, "You don't have permission to update this project")
    ensures ValidateUrls(req, parses).None? && projectId in projects && UserService.GetCurrentUser(users, principal).Ok?
            && projects[projectId].owner == UserService.GetCurrentUser(users, principal).value.id ==>
              && (r.Ok? <==> NameAccepted(req.name))
              && (!NameAccepted(req.name) ==> r == Err(ConstraintViolation(report)))
    ensures r.Ok? ==> var (after, p) := r.value;
              && projectId in projects
              && var prev := projects[projectId];
              && p.id == prev.id && p.owner == prev.owner
              && UserService.GetCurrentUser(users, principal).Ok?
              && p.owner == UserService.GetCurrentUser(users, principal).value.id
              && p.name == req.name && p.demoUrl == req.demoUrl
              && p.repositoryUrl == req.repositoryUrl && p.description == req.description
              && after == projects[projectId := p]
  {
    if ValidateUrls(req, parses).Some? then Err(ValidateUrls(req, parses).value)
    else if projectId !in projects then Fail(NotFound, "Project not found")
    else
      var project := projects[projectId];
      var user :- UserService.GetCurrentUser(users, principal);
      if project.owner != user.id then Fail(Forbidden, "You don't have permission to update this project")
      else
        var p := project.(name := req.name, demoUrl := req.demoUrl, repositoryUrl := req.repositoryUrl,
                          description := req.description);
        var after :- SaveProject(projects, projectId, p, report);
        Ok((after, p))
  }

  /** `deleteProject`: 404 when absent, then the user lookup, then 403 when
      not owned; the owner's delete removes exactly that project. */
  function DeleteProject(users: Users, projects: Projects, principal: string, projectId: ProjectId): (r: Result<Projects, Exception>)
    ensures projectId !in projects ==> r == Fail(NotFound, "Project not found")
    ensures projectId in projects && UserService.GetCurrentUser(users, principal).Err? ==>
              r == Err(UserService.GetCurrentUser(users, principal).error)
    ensures projectId in projects && UserService.GetCurrentUser(users, principal).Ok?
            && projects[projectId].owner != UserService.GetCurrentUser(users, principal).value.id ==>
              r == Fail(Forbidden, "You don't have permission to delete this project")
    ensures projectId in projects && UserService.GetCurrentUser(users, principal).Ok?
            && projects[projectId].owner == UserService.GetCurrentUser(users, principal).value.id ==>
              r.Ok?
    ensures r.Ok? ==> && projectId in projects
                      && UserService.GetCurrentUser(users, principal).Ok?
                      && projects[projectId].owner == UserService.GetCurrentUser(users, principal).value.id
                      && r.value.Keys == projects.Keys - {projectId}
                      && forall pid :: pid in r.value ==> r.value[pid] == projects[pid]
  {
    if projectId !in projects then Fail(NotFound, "Project not found")
    else
      var user :- UserService.GetCurrentUser(users, principal);
      if projects[projectId].owner != user.id then Fail(Forbidden, "You don't have permission to delete this project")
      else Ok(projects - {projectId})
  }

  /** A project added by a user shows up in that user's listing, with the
      submitted fields, and the listing grows by exactly that project. */
  lemma AddedProjectIsListed(users: Users, projects: Projects, principal: string, req: ProjectRequest,
                             parses: string -> bool, newId: ProjectId, report: string)
    requires newId !in projects && KeyedById(users)
    requires AddProject(users, projects, principal, req, parses, newId, report).Ok?
    ensures var (after, p) := AddProject(users, projects, principal, req, parses, newId, report).value;
            && GetUserProjects(users, after, p.owner) == GetUserProjects(users, projects, p.owner)[newId := p]
            && |GetUserProjects(users, after, p.owner)| == |GetUserProjects(users, projects, p.owner)| + 1
  {
    var (after, p) := AddProject(users, projects, principal, req, parses, newId, report).value;
    var user := UserService.GetCurrentUser(users, principal).value;
    assert user in users.Values;
    var uid :| uid in users && users[uid] == user;
    assert p.owner in users;
    var before := GetUserProjects(users, projects, p.owner);
    var now := GetUserProjects(users, after, p.owner);
    assert now == before[newId := p];
    assert newId !in before;
  }

  /** Deleting one's own project removes it from one's listing and leaves
      every other listed project in place. */
  lemma DeletedProjectIsUnlisted(users: Users, projects: Projects, principal: string, projectId: ProjectId, owner: UserId)
    requires DeleteProject(users, projects, principal, projectId).Ok?
    ensures var after := DeleteProject(users, projects, principal, projectId).value;
            GetUserProjects(users, after, owner) == GetUserProjects(users, projects, owner) - {projectId}
  {
  }

  /** Updating a project keeps it with its owner: every listing holds the
      same projects as before, the updated one carrying the new fields. */
  lemma {:induction false} UpdatedProjectStaysListed(users: Users, projects: Projects, principal: string, projectId: ProjectId,
                                                     req: ProjectRequest, parses: string -> bool, report: string, owner: UserId)
    requires UpdateProject(users, projects, principal, projectId, req, parses, report).Ok?
    ensures var (after, p) := UpdateProject(users, projects, principal, projectId, req, parses, report).value;
            var before := GetUserProjects(users, projects, owner);
            && GetUserProjects(users, after, owner).Keys == before.Keys
            && (projectId in before ==> GetUserProjects(users, after, owner) == before[projectId := p])
            && (projectId !in before ==> GetUserProjects(users, after, owner) == before)
  {
    var (after, p) := UpdateProject(users, projects, principal, projectId, req, parses, report).value;
    var before := GetUserProjects(users, projects, owner);
    var now := GetUserProjects(users, after, owner);
    assert forall pid :: pid in after <==> pid in projects;
    assert forall pid :: pid in after ==> after[pid].owner == projects[pid].owner;
    if projectId in before {
      assert now == before[projectId := p];
    } else {
      assert now == before;
    }
  }
}
