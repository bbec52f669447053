/**
 * The two tables of app.py, as the search route reads them: a user with its
 * `locations` relationship loaded, and a location with its point read back
 * through the `latitude`/`longitude` column properties.
 */
module Models {

  /** A row of `locations`: a place a user has been, with its coordinates in degrees. */
  datatype Location = Location(id: int, userId: int, name: string, latitude: real, longitude: real)

  /** A row of `users` with the locations that reference it, in the order
      the database hands them back. */
  datatype User = User(id: int, name: string, age: int, gender: string, locations: seq<Location>)
}
