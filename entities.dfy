/** Rows of the five tables, the DTOs the services return, the security
    principal, and the exceptions the services raise. Row ids are the keys of
    the tables (see Repositories) and are not repeated inside the rows. */
module Entities {

  datatype Option<T> = None | Some(value: T)

  /** A service call either returns a value or raises one of the exceptions below. */
  datatype Result<T> = Ok(value: T) | Err(error: Error)

  /** The result of a `void` service method. */
  datatype Outcome = Done | Fail(error: Error)

  /** The exceptions raised by the services: the not-found family carries the
      missing key, `NumberFormat` is Integer.parseInt's failure, `IoFailure`
      is a failing file read or delete. */
  datatype Error =
    | AdNotFound(adId: int)
    | CommentNotFound(commentId: int)
    | ImageNotFound(key: int)
    | AvatarNotFound(userId: int)
    | UserNotFound(email: string)
    | UserNotAuthenticated
    | NumberFormat(text: string)
    | IoFailure(path: string)

  datatype Role = Admin | UserRole

  type Bytes = seq<bv8>

  // ---- persisted rows ----

  datatype User = User(email: string, password: string, firstName: string,
                       lastName: string, phone: string, role: Role)

  datatype Ad = Ad(ownerId: int, title: string, price: int, description: string)

  datatype Comment = Comment(adId: int, authorId: int, text: string, createdAt: int)

  datatype Avatar = Avatar(userId: int, filePath: string, pathForEndpoint: string, mediaType: string)

  datatype Image = Image(adId: int, filePath: string, pathForEndpoint: string, mediaType: string)

  // ---- the authenticated caller ----

  /** The principal's user name (an e-mail) and its granted roles. */
  datatype Principal = Principal(username: string, roles: set<Role>)

  /** The security context's Authentication; a missing one is `None`. */
  datatype Authentication = Authentication(authenticated: bool, principal: Principal)

  /** An uploaded multipart file. */
  datatype Upload = Upload(originalFilename: string, contentType: string, bytes: Bytes)

  // ---- request and response bodies ----

  datatype CreateOrUpdateAd = CreateOrUpdateAd(title: string, price: int, description: string)

  datatype AdDto = AdDto(author: int, image: string, pk: int, price: int, title: string)

  datatype AdsDto = AdsDto(count: int, results: seq<AdDto>)

  datatype ExtendedAd = ExtendedAd(pk: int, authorFirstName: string, authorLastName: string,
                                   description: string, email: string, image: string,
                                   phone: string, price: int, title: string)

  datatype CommentDto = CommentDto(author: int, authorImage: Option<string>, authorFirstName: string,
                                   createdAt: int, pk: int, text: string)

  datatype CommentsDto = CommentsDto(count: int, results: seq<CommentDto>)

  datatype UserDto = UserDto(id: int, email: string, firstName: string, lastName: string,
                             phone: string, role: Role, image: Option<string>)

  datatype UpdateUserDto = UpdateUserDto(firstName: string, lastName: string, phone: string)

  datatype RegisterDto = RegisterDto(username: string, password: string, firstName: string,
                               lastName: string, phone: string, role: Role)
}
