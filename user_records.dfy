/**
 * The player record exchanged with clients (UserDC).  The service keeps
 * one per joined player and updates its flags and score; here a record is
 * a value that the service replaces in its map.
 */
module UserRecords {

  datatype UserDC = UserDC(ID: int, Name: string, isReady: bool, turnEnded: bool, Score: int)

  /**
   * `new UserDC(name)`: the constructor sets the name, clears both flags and
   * zeroes the score; it does not set `ID`, which keeps the default 0 until
   * the client assigns the id it was registered under.
   */
  function NewUser(name: string): (u: UserDC)
    ensures u.Name == name
    ensures !u.isReady && !u.turnEnded && u.Score == 0
    ensures u.ID == 0
  {
    UserDC(0, name, false, false, 0)
  }
}
