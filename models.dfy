/** The records the application stores and exchanges: users, their public view, vacations
    and the per-caller view of a vacation that listings return. */
module Models {

  /** A calendar date as a day number. */
  type Day = int

  datatype Role = UserRole | AdminRole

  /** A row of the users table; `password` holds the bcrypt hash. */
  datatype User = User(id: nat, firstName: string, lastName: string, email: string,
                       password: string, role: Role)

  /** The user as the API shows it and as a token carries it: the row without the password. */
  datatype UserDto = UserDto(id: nat, firstName: string, lastName: string, email: string, role: Role)

  function ToDto(u: User): UserDto {
    UserDto(u.id, u.firstName, u.lastName, u.email, u.role)
  }

  /** A row of the vacations table. */
  datatype Vacation = Vacation(id: nat, destination: string, description: string,
                               startDate: Day, endDate: Day, price: int, imageFileName: string)

  /** A vacation as listings show it to one caller. */
  datatype VacationItem = VacationItem(vacation: Vacation, followersCount: int, isFollowing: bool)

  /** The image name of a vacation created without an upload; it is never deleted from disk. */
  const DefaultImage := "default.jpg"
}
