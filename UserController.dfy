/** The user endpoints as decisions over the request: the ordered checks of
    `updateUser`, the argument `updateUserMeta` passes on, and the mapping of the
    service's answers to status codes. The service calls are parameters; the
    request-validation chains are represented only by their verdict. */
module UserController {
  import opened Common
  import opened AuthService

  /** The responses of the user endpoints. */
  datatype Reply =
    | ValidationErrors
    | Message(status: int, text: string)
    | UserReply(status: int, user: UserRow)
    | UserList(status: int, users: seq<UserRow>)
    | NoContent

  /** The fields of an update body that the handler looks at, after the sanitizers. */
  datatype UserBody = UserBody(
    name: Input<string>,
    email: Input<string>,
    pathImageBanner: Input<string>,
    pathImageIcon: Input<string>)

  /** What `updateUser` does once the body has been examined: answer at once, or hand
      the id and body to the update query. */
  datatype UpdateStep = Respond(reply: Reply) | Update(id: int, data: UserBody)

  const ImagePrefix: string := "data:image/"
  const NotFound: Reply := Message(404, "User not found")

  /** `!field || field.startsWith("data:image/")`: an absent, null or empty image passes. */
  predicate ImageAccepted(f: Input<string>)
  {
    !Truthy(f) || StartsWith(f.value, ImagePrefix)
  }

  /** `getAllUsers`: 401 without a caller, else the service's rows for the caller's id. */
  function GetAllUsers(caller: Option<int>, query: int -> seq<UserRow>): (r: Reply)
    ensures !Authorized(caller) <==> r == Message(401, "Unauthorized")
    ensures Authorized(caller) ==> r == UserList(200, query(caller.value))
  {
    if !Authorized(caller) then Message(401, "Unauthorized")
    else UserList(200, query(caller.value))
  }

  /** `getUserById`: the row with the path id, whoever asks. */
  function GetUserById(caller: Option<int>, id: int, validationFailed: bool, lookup: int -> Option<UserRow>): (r: Reply)
    ensures validationFailed <==> r == ValidationErrors
    ensures !validationFailed ==> (r == NotFound <==> lookup(id).None?)
    ensures r.UserReply? ==> r == UserReply(200, lookup(id).value)
    ensures !validationFailed && lookup(id).Some? ==> r == UserReply(200, lookup(id).value)
  {
    if validationFailed then ValidationErrors
    else match lookup(id)
      case None => NotFound
      case Some(u) => UserReply(200, u)
  }

  /** The checks of `updateUser` after validation: a falsy name, then a bad icon, then
      a bad banner; only a body that passes all three reaches the update query. */
  function UpdateUserStep(caller: Option<int>, id: int, body: UserBody, validationFailed: bool): (s: UpdateStep)
    ensures s.Update? <==>
      !validationFailed && Truthy(body.name) && ImageAccepted(body.pathImageIcon) && ImageAccepted(body.pathImageBanner)
    ensures s.Update? ==> s == Update(id, body)
    ensures s.Respond? ==> s.reply == ValidationErrors || (s.reply.Message? && s.reply.status == 400)
  {
    if validationFailed then Respond(ValidationErrors)
    else if !Truthy(body.name) then Respond(Message(400, "Name is required"))
    else if !ImageAccepted(body.pathImageIcon) then Respond(Message(400, "Invalid Base64 format for pathImageIcon"))
    else if !ImageAccepted(body.pathImageBanner) then Respond(Message(400, "Invalid Base64 format for pathImageBanner"))
    else Update(id, body)
  }

  /** `updateUser`: the checks, then the query; no updated row is 404. */
  function UpdateUser(caller: Option<int>, id: int, body: UserBody, validationFailed: bool,
                      service: (int, UserBody) -> Option<UserRow>): (r: Reply)
    ensures UpdateUserStep(caller, id, body, validationFailed).Respond? ==>
      r == UpdateUserStep(caller, id, body, validationFailed).reply
    ensures UpdateUserStep(caller, id, body, validationFailed).Update? ==>
      r == (if service(id, body).None? then NotFound else UserReply(200, service(id, body).value))
  {
    match UpdateUserStep(caller, id, body, validationFailed)
    case Respond(reply) => reply
    case Update(i, data) =>
      match service(i, data)
      case None => NotFound
      case Some(u) => UserReply(200, u)
  }

  /** A falsy name is refused with "Name is required" before anything else is looked at. */
  lemma FalsyNameRefused(caller: Option<int>, id: int, body: UserBody)
    requires !Truthy(body.name)
    ensures UpdateUserStep(caller, id, body, false) == Respond(Message(400, "Name is required"))
  {
  }

  /** When both images are bad, the icon is the one reported. */
  lemma IconCheckedBeforeBanner(caller: Option<int>, id: int, body: UserBody)
    requires Truthy(body.name) && !ImageAccepted(body.pathImageIcon)
    ensures UpdateUserStep(caller, id, body, false)
         == Respond(Message(400, "Invalid Base64 format for pathImageIcon"))
  {
  }

  /** Absent, null and empty images never block an update. */
  lemma MissingImagesPass(caller: Option<int>, id: int, name: string, email: Input<string>,
                          banner: Input<string>, icon: Input<string>)
    requires name != ""
    requires banner == Absent || banner == Null || banner == Given("")
    requires icon == Absent || icon == Null || icon == Given("")
    ensures UpdateUserStep(caller, id, UserBody(Given(name), email, banner, icon), false).Update?
  {
  }

  /** An image given as "data:image/" followed by anything passes its check. */
  lemma DataImagePasses(rest: string)
    ensures ImageAccepted(Given(ImagePrefix + rest))
  {
    StartsWithConcat(ImagePrefix, rest);
  }

  /** A refused update never consults the store: the reply is the same whatever the
      update query would have returned. */
  lemma RefusedUpdateTouchesNothing(caller: Option<int>, id: int, body: UserBody, validationFailed: bool,
                                    service1: (int, UserBody) -> Option<UserRow>,
                                    service2: (int, UserBody) -> Option<UserRow>)
    requires UpdateUserStep(caller, id, body, validationFailed).Respond?
    ensures UpdateUser(caller, id, body, validationFailed, service1)
         == UpdateUser(caller, id, body, validationFailed, service2)
  {
  }

  /** `deleteUser`: 204 when a row with the path id was removed, else 404. */
  function DeleteUser(caller: Option<int>, id: int, validationFailed: bool, delete: int -> bool): (r: Reply)
    ensures validationFailed <==> r == ValidationErrors
    ensures !validationFailed ==> (r == NoContent <==> delete(id)) && (r != NoContent ==> r == NotFound)
  {
    if validationFailed then ValidationErrors
    else if !delete(id) then NotFound
    else NoContent
  }

  /** The second argument `updateUserMeta` hands to the service. */
  datatype MetaArgument = NullMeta | NotANumber | Number(value: real)

  /** `metaInput !== undefined ? parseFloat(metaInput) : null`, for a value the decimal
      check let through: an absent meta is null, a null meta is `parseFloat(null)`. */
  function MetaArgumentOf(meta: Input<real>): (a: MetaArgument)
    ensures a.NullMeta? <==> meta.Absent?
    ensures meta.Given? ==> a == Number(meta.value)
  {
    match meta
    case Absent => NullMeta
    case Null => NotANumber
    case Given(v) => Number(v)
  }

  /** `updateUserMeta`: validation, then the update; a false answer is 404. */
  function UpdateUserMeta(id: int, meta: Input<real>, validationFailed: bool,
                          update: (int, MetaArgument) -> bool): (r: Reply)
    ensures validationFailed <==> r == ValidationErrors
    ensures !validationFailed ==>
      (r == Message(200, "Meta atualizada") <==> update(id, MetaArgumentOf(meta))) &&
      (r != Message(200, "Meta atualizada") ==> r == Message(404, "Usuário não encontrado"))
  {
    if validationFailed then ValidationErrors
    else if !update(id, MetaArgumentOf(meta)) then Message(404, "Usuário não encontrado")
    else Message(200, "Meta atualizada")
  }

  /** As written, a null meta (which the nullable check admits) reaches the service as
      NaN rather than as null. */
  lemma NullMetaBecomesNotANumber()
    ensures MetaArgumentOf(Null) == NotANumber
    ensures MetaArgumentOf(Null) != MetaArgumentOf(Absent)
  {
  }

  /** The argument the handler evidently means to pass: null for a missing or null meta,
      the number otherwise; NaN never reaches the service. */
  function MetaArgumentIntended(meta: Input<real>): (a: MetaArgument)
    ensures a != NotANumber
    ensures a.NullMeta? <==> !meta.Given?
    ensures meta.Given? ==> a == Number(meta.value)
    ensures meta != Null ==> a == MetaArgumentOf(meta)
  {
    match meta
    case Given(v) => Number(v)
    case _ => NullMeta
  }

  /** As written, the three by-id endpoints act on the path id even when it is not the
      caller's: user 1 reads, updates and deletes user 2. */
  lemma ActsOnAnyId(lookup: int -> Option<UserRow>, delete: int -> bool, body: UserBody)
    requires lookup(2).Some? && delete(2)
    requires body.name == Given("A") && body.pathImageIcon == Absent && body.pathImageBanner == Absent
    ensures GetUserById(Some(1), 2, false, lookup) == UserReply(200, lookup(2).value)
    ensures UpdateUserStep(Some(1), 2, body, false) == Update(2, body)
    ensures DeleteUser(Some(1), 2, false, delete) == NoContent
  {
  }

  /** The ownership check the endpoints evidently intend: a path id other than the
      caller's is answered as not found. */
  predicate OwnsPath(caller: Option<int>, id: int)
  {
    Authorized(caller) && caller.value == id
  }

  function GetUserByIdOwned(caller: Option<int>, id: int, validationFailed: bool,
                            lookup: int -> Option<UserRow>): (r: Reply)
    ensures r.UserReply? ==> OwnsPath(caller, id)
    ensures !validationFailed && !OwnsPath(caller, id) ==> r == NotFound
    ensures validationFailed || OwnsPath(caller, id) ==> r == GetUserById(caller, id, validationFailed, lookup)
  {
    if validationFailed then ValidationErrors
    else if !OwnsPath(caller, id) then NotFound
    else GetUserById(caller, id, validationFailed, lookup)
  }

  function UpdateUserStepOwned(caller: Option<int>, id: int, body: UserBody, validationFailed: bool): (s: UpdateStep)
    ensures s.Update? ==> OwnsPath(caller, id) && s.id == caller.value
    ensures !validationFailed && !OwnsPath(caller, id) ==> s == Respond(NotFound)
    ensures validationFailed || OwnsPath(caller, id) ==> s == UpdateUserStep(caller, id, body, validationFailed)
  {
    if validationFailed then Respond(ValidationErrors)
    else if !OwnsPath(caller, id) then Respond(NotFound)
    else UpdateUserStep(caller, id, body, validationFailed)
  }

  function DeleteUserOwned(caller: Option<int>, id: int, validationFailed: bool, delete: int -> bool): (r: Reply)
    ensures r == NoContent ==> OwnsPath(caller, id) && delete(id)
    ensures !validationFailed && !OwnsPath(caller, id) ==> r == NotFound
    ensures validationFailed || OwnsPath(caller, id) ==> r == DeleteUser(caller, id, validationFailed, delete)
  {
    if validationFailed then ValidationErrors
    else if !OwnsPath(caller, id) then NotFound
    else DeleteUser(caller, id, validationFailed, delete)
  }

  /** With the ownership check, user 1 can neither read, update nor delete user 2. */
  lemma OwnedEndpointsRefuseOtherIds(caller: Option<int>, id: int, body: UserBody,
                                     lookup: int -> Option<UserRow>, delete: int -> bool)
    requires caller != Some(id)
    ensures GetUserByIdOwned(caller, id, false, lookup) == NotFound
    ensures UpdateUserStepOwned(caller, id, body, false) == Respond(NotFound)
    ensures DeleteUserOwned(caller, id, false, delete) == NotFound
  {
  }
}
