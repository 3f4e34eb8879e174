/** The request and response shapes of the service. They carry data only. */
module Dto {
  import opened Wrappers
  import opened UserEntity

  /** One phone of a registration request, with the request's own spelling of
      the field names. */
  datatype PhonesItem = PhonesItem(
    number: Option<string>,
    citycode: Option<string>,
    contrycode: Option<string>)

  /** The registration request body. */
  datatype UserDto = UserDto(
    password: Option<string>,
    name: Option<string>,
    phones: Option<seq<PhonesItem>>,
    email: Option<string>)

  /** The credentials body of the token and login requests. */
  datatype UserPassword = UserPassword(email: Option<string>, password: Option<string>)

  /** The body of a successful registration: no name, email, password or phones. */
  datatype UserApiResponse = UserApiResponse(
    id: Option<string>,
    created: Option<Timestamp>,
    modified: Option<Timestamp>,
    lastLogin: Option<Timestamp>,
    isActive: Option<bool>)
}
