# user-searching-api in Dafny

A model of the user-searching API: a small Flask service over PostgreSQL that
searches users by gender, age and distance from a point, and a seeding
script that loads its CSV export into the database.

The model covers three pieces.

- **`parse_lat_lng`** (module `Origin`, on top of `PyText`). It turns the
  `origin` parameter `"lat,lng"` into a pair of numbers, or into nothing
  when the text is not exactly two numbers. `PyText` holds the Python
  built-ins it relies on: `str.split(sep, maxsplit)` with its inverse
  `sep.join`, and `float()` on optionally signed decimal numerals. Before
  parsing, `float()` strips the space and `\t`..`\r` from both ends. That is
  fewer characters than `str.strip()` removes: the separators 0x1C..0x1F stay,
  and `float()` then refuses the text.
- **The `GET /users` route** (module `Search`, rows in `Models`).
  - The query parameters become a chain of filters and the
    `metadata.query` echo.
  - The filters select users from the table.
  - The selection is counted, then cut to the requested page.
  - Each user on the page becomes a result object, with the places in its
    location history as features.
  - The database's `earth_distance` is a function-valued parameter.
- **The seeding loop of `seed.py`** (module `Seed`). One CSV row per
  visited place becomes one location. A user is added the first time its
  `user_id` appears. The session's `add` calls are the output sequence.

What is proved:

- The split at the comma inverts `join` and finds exactly two fields iff the
  origin has exactly one comma.
- Whitespace around either number, such as a space after the comma, changes
  nothing. A minus sign negates a number, and a field `float()` accepts never
  holds a comma.
- A field is a number exactly when, once stripped, it is an optional sign
  followed by digits with at most one point.
- The chained filters act as a conjunction, and their order does not matter.
- The filters the route builds ask of every user exactly what the parameters
  ask.
- The count is taken before pagination, and the page is the right slice.
- Every shown user visibly satisfies the applied filters.
- The metadata echoes exactly the parameters that took effect.
- Seeding gives one user per distinct id, built from its first row, in order
  of first appearance.
- Seeding gives one location per row, and each location comes after a user
  with its id.

## Model

| member | source | states |
|---|---|---|
| PyText.LeadingSpace | app.py:92-93 | The whitespace prefix that `float()` skips (space and `\t`..`\r`): everything before it is whitespace, the next character is not. |
| PyText.TrailingSpaceStart | app.py:92-93 | The whitespace suffix that `float()` skips (space and `\t`..`\r`): everything after it is whitespace, the character before is not. |
| PyText.Strip | app.py:92-93 | The stripping `float()` does leaves text that is empty or starts and ends with a non-space. |
| PyText.StripSlice | app.py:92-93 | What the stripping keeps is a slice of the text, with only whitespace before and after it. |
| PyText.StripUnpadded | app.py:92-93 | Text that starts and ends with a non-space is left alone by the stripping. |
| PyText.LeadingSpaceUnique | app.py:92-93 | The stripped prefix is exactly the run of whitespace before the first non-space. |
| PyText.TrailingSpaceStartUnique | app.py:92-93 | The stripped suffix is exactly the run of whitespace after the last non-space. |
| PyText.StripPadded | app.py:92-93 | Whitespace added on either side does not change what the stripping gives. |
| PyText.IndexOf | app.py:91 | The first occurrence of the separator: it is there and not before. |
| PyText.Split | app.py:91 | `split(sep, maxsplit)` gives 1 to maxsplit+1 fields that `join` back to the input; only the last field may contain the separator, and only when all cuts were used. |
| PyText.SplitTwoFields | app.py:91 | `split(",", 2)` gives exactly two fields iff the text holds exactly one comma. |
| PyText.SplitAtOnlySeparator | app.py:91 | Splitting `a,b`, where neither part has a comma, gives back `[a, b]`. |
| PyText.ParseUnsigned | app.py:92-93 | An accepted unsigned numeral starts with a digit or a point, holds only whitespace and numeral characters, and has a non-negative value; its exact shape is in `UnsignedAccepted`. |
| PyText.PointSplit | app.py:92-93 | A numeral with a point is the part before its first point, the point, and the rest; only the rest can hold another point. |
| PyText.UnsignedFormAccepted | app.py:92-93 | Digits with at most one point and at least one digit are accepted. |
| PyText.UnsignedAcceptedForm | app.py:92-93 | Only digits with at most one point and at least one digit are accepted. |
| PyText.UnsignedAccepted | app.py:92-93 | An unsigned numeral is accepted iff it is digits with at most one point and at least one digit, so `1.2.3`, `1 2`, `1-2` and `.` raise. |
| PyText.NumeralAccepted | app.py:92-93 | Stripped text is accepted iff it is an unsigned numeral with an optional sign at the front, so `-`, `1-` and `--1` raise. |
| PyText.ParseFloatAccepted | app.py:92-93 | `float(s)` succeeds iff `s`, stripped of the space and `\t`..`\r`, is an optionally signed unsigned numeral. |
| PyText.ParseFloatRefusesSeparator | app.py:92-93 | Text that starts with one of the separators 0x1C..0x1F raises: `float()` does not strip them. |
| PyText.WholeDigits | app.py:92-93 | A bare digit string is accepted with its integer value. |
| PyText.TrailingPoint | app.py:92-93 | `digits.` is accepted with the value of `digits`. |
| PyText.LeadingPoint | app.py:92-93 | `.digits` is accepted as the fraction `digits / 10^len`. |
| PyText.UnsignedValue | app.py:92-93 | `whole.frac` with digits on both sides is accepted with the exact decimal value. |
| PyText.StripDigits | app.py:92-93 | A numeral that starts and ends with a digit is left alone by the stripping. |
| PyText.ParseNumeral | app.py:92-93 | Stripped text that `float()` accepts holds only whitespace and numeral characters; its exact shape is in `NumeralAccepted`. |
| PyText.ParseFloat | app.py:92-93 | Empty or blank text raises `ValueError`. The rest of its meaning is in `ParseFloatPadded`, `DecimalValue`, `ParseFloatSigned` and `NumericText`. |
| PyText.IsNumeric | app.py:92-93 | A field that `float()` accepts is not blank once stripped. |
| PyText.StripNumeral | app.py:92-93 | Whitespace around numeral text keeps it free of any other character. |
| PyText.NumericText | app.py:91-93 | A field that `float()` accepts holds only whitespace and numeral characters, so never a comma. |
| PyText.SignBefore | app.py:92-93 | A sign in front of text with no trailing whitespace: `-` negates the unsigned value, `+` keeps it, and a failure stays a failure. |
| PyText.ParseFloatUnsigned | app.py:92-93 | An unsigned numeral without surrounding whitespace is read as it is. |
| PyText.ParseFloatSigned | app.py:92-93 | `float("-x")` is minus `float("x")` and `float("+x")` is `float("x")`, for an unsigned numeral `x`. |
| PyText.ParseFloatOneSign | app.py:92-93 | Two signs in a row, as in `--5` or `+-5`, raise `ValueError`. |
| PyText.ParseFloatPadded | app.py:92-93 | `float()` ignores whitespace on either side of its argument. |
| Origin.ParseLatLng | app.py:70-96 | Splits at most twice at commas and converts both fields with `float()`; any `ValueError` gives `(None, None)`. A result means the origin held exactly one comma. |
| Origin.ParseNeedsOneComma | app.py:90-96 | No comma, or two or more commas, gives `(None, None)` whatever the fields hold. |
| Origin.ParseRejectsThreeFields | app.py:83-96 | Three fields are rejected, whatever they hold. |
| Origin.ParseTwoFields | app.py:90-96 | With exactly one comma, the result exists iff both fields are numbers; it is then the pair of their values. |
| Origin.ParseIgnoresPadding | app.py:77-96 | Whitespace around either field changes nothing. |
| Origin.ParseRefusesSeparatorPadding | app.py:90-96 | A field that starts with one of the separators 0x1C..0x1F makes the origin `(None, None)`. |
| Origin.ParseSpaceAfterComma | app.py:78-79 | A space after the comma changes nothing. |
| Origin.DecimalValue | app.py:92-93 | `float("whole.frac")` is the exact decimal value of the numeral. |
| Origin.FiftyPointFive | app.py:75-76 | `float("50.5")` is 50.5. |
| Origin.HundredTenPointTwo | app.py:75-76 | `float("110.2")` is 110.2. |
| Origin.ExamplePlain | app.py:75-76 | `parse_lat_lng("50.5,110.2")` is `(50.5, 110.2)`. |
| Origin.ExampleSpaceAfterComma | app.py:78-79 | `parse_lat_lng("50.5, 110.2")` is `(50.5, 110.2)`. |
| Origin.MinusSeventyFive | app.py:92-93 | `float("-75.0")` is -75.0. |
| Origin.FortyPointZero | app.py:92-93 | `float("40.0")` is 40.0. |
| Origin.ExampleNegative | app.py:90-96 | `parse_lat_lng("40.0,-75.0")` is `(40.0, -75.0)`: a negative coordinate is accepted. |
| Origin.ExampleThreeFields | app.py:83-84 | `parse_lat_lng("50.5,110.2,99")` is `(None, None)`. |
| Search.Keep | app.py:135-156 | A filtered query holds exactly the users of its input that meet the criterion, and no more of them. |
| Search.KeepCongruent | app.py:135-156 | Criteria that agree on every user select the same users. |
| Search.KeepKeep | app.py:135-156 | Filtering a filtered query is filtering once by both conditions. |
| Search.Run | app.py:129-156 | What the chain of `q.filter(...)` calls returns: exactly the users of the table that pass every filter, and never more users than the table has. |
| Search.KeepNothing | app.py:129 | An empty chain of filters selects the whole table. |
| Search.AllHoldSnoc | app.py:135-156 | A user passes a chain with one more filter iff it passes the chain and that filter. |
| Search.RunIsConjunction | app.py:129-156 | Chained `q.filter(...)` calls select exactly the users that pass all of the filters. |
| Search.FilterOrderIrrelevant | app.py:135-156 | Chains with the same filters select the same users, whatever the order and however often a filter repeats. |
| Search.NoDistanceFilterWithoutBoth | app.py:147-149 | Without a non-empty origin that parses and a distance, the search selects what it selects with neither parameter. |
| Search.Page | app.py:164 | `LIMIT limit OFFSET start`: at most `limit` users, the ones from position `start` on, in order; nothing when `start` is past the end. |
| Search.FeatureOf | app.py:175-184 | A place's GeoJSON feature gives back its city and, read longitude first, its point. |
| Search.ResultOf | app.py:174-197 | One feature per visited place, in the order of the location history, and the user's id, name, age and gender as properties. |
| Search.AdmittedShown | app.py:174-200 | A selected user's result shows its gender and age, and, for a distance search, a place within the distance of the origin. |
| Search.AgeCriteriaAdmit | app.py:135-145 | The gender and age filters ask exactly what `gender`, `min_age` and `max_age` ask. |
| Search.CriteriaAdmitAt | app.py:135-156 | The route's filter chain for a parsed origin asks the gender, the age bounds and, when applied, a location within the distance. |
| Search.CriteriaAdmit | app.py:121-156 | The route's filter chain asks of every user exactly what the parameters ask. |
| Search.CriteriaSelectMatching | app.py:121-156 | Running the route's chain selects exactly the users that match the parameters, in table order. |
| Search.EchoedQueryKeys | app.py:126-167 | `metadata.query` holds a filter's parameters, with their values, exactly when that filter was applied. It always holds `limit` and `start`: the given values, or 5 and 0 when they are missing. |
| Search.BuildQuery | app.py:129-156 | Builds the filter chain and the metadata entries one parameter at a time; the results are the route's chain and entries for the parsed origin. |
| Search.BuildResults | app.py:174-200 | One result per user on the page, in page order, each with the user's places as features and its id, name, age and gender. |
| Search.Users | app.py:100-207 | `total_results` counts every matching user before pagination, and `num_results` counts the results. The results are the requested page of the matches, in order, and each shows that it matches. The metadata has path `/users` and echoes the query. |
| Seed.FirstIndex | seed.py:16-17 | The first row with a given `user_id`: the id occurs there and in no earlier row. |
| Seed.FirstIndexUnique | seed.py:16-17 | A row whose id occurs in no earlier row is that id's first row. |
| Seed.FirstIndexOfPrefix | seed.py:16-17 | Rows read later do not move an id's first row. |
| Seed.SessionSnoc | seed.py:16-31 | Reading one more row adds its user when the id is new, then its location. |
| Seed.Seed | seed.py:12-31 | The loop keeps the set of ids seen so far and hands the session exactly what `Session` prescribes for all the rows. |
| Seed.UsersAddedAppend | seed.py:23 | The users added by two stretches of the session are those of the first, then those of the second. |
| Seed.LocationsAddedAppend | seed.py:31 | The locations added by two stretches of the session are those of the first, then those of the second. |
| Seed.SeededUsersSnoc | seed.py:17-24 | A row adds a user exactly when no earlier row had its id. |
| Seed.SeededIds | seed.py:13-24 | The seeded users' ids are exactly the distinct `user_id` values of the CSV. |
| Seed.SeededDistinct | seed.py:12-24 | No two seeded users share an id: a repeated id adds no second user. |
| Seed.SeededFromFirstRow | seed.py:17-22 | Every seeded user has the name, age and gender of the first row with its id. |
| Seed.SeededInFirstAppearanceOrder | seed.py:16-24 | Users are seeded in the order their ids first appear. |
| Seed.SeededLocations | seed.py:26-31 | One location per row, duplicates included, in row order, built from that row. |
| Seed.UserBeforeLocation | seed.py:17-31 | Every location is added after a user with its `user_id`. |
| Seed.AddedUserPosition | seed.py:23 | Every user among the added objects sits at some position of the session. |
| Seed.RepeatedIdsAddNoUser | seed.py:12-24 | Further rows whose ids were all seen add no user. |

## Left out

- Flask's request parsing and `jsonify` are left out. The parameters arrive already converted:
  - `None` stands for a missing value, or for an integer parameter that is not an integer.
  - The response is a datatype without the constant `"type"` tags of the JSON.
- SQLAlchemy and PostgreSQL are left out, and so is the SQL text.
  - The table is the sequence of users an unfiltered query returns, with their locations loaded.
  - The model uses that order for the page. The route does not ask the database for any order.
  - `ll_to_earth`/`earth_distance` is a function-valued parameter `earthDistance`. Nothing is assumed about it.
- Search.Users: a negative `limit` or `start` is excluded by `requires`. PostgreSQL rejects such a query with an error that the route does not catch, and that error path is not modelled.
- Search.Meters: the product `dist * 1609.34` is exact; the binary floating-point rounding of Python and PostgreSQL is not modelled.
- PyText.ParseFloat: `float()` is modelled on optionally signed decimal numerals with ASCII whitespace around them. Several forms it also accepts are out: exponents, `inf`/`nan`, underscores between digits, and non-ASCII digits and whitespace, which `float()` accepts and strips but the model refuses. Values are exact reals, not binary doubles.
  - At route level: for an origin such as `"1e1,2"`, `"inf,2"` or `"1_0,2"`, the route applies the distance filter and echoes `origin` and `dist`. The model rejects those numerals, so it applies no distance filter and echoes neither.
- The route calls `parse_lat_lng` inside `if origin and dist is not None:`. The model computes it beforehand in `Search.Users` and `Search.BuildQuery` reads it inside the same test. It is a pure function, so the outcome is the same.
- Seed.Seed: opening the CSV file, `csv.DictReader`, `db.create_all()` and `db.session.commit()` are I/O.
  - The rows are an input sequence.
  - The session is the sequence of objects passed to `db.session.add`.
  - Fields stay the raw CSV strings. Their conversion to integers and to an earth point by the database is not modelled.
  - Seed.Seed: the duplicate check compares the raw `user_id` text. Rows with ids `"1"` and `"01"` therefore seed two users that get the same integer id, and the database rejects the commit. The model shows the two users and not the failed commit.
