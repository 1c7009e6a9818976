# CppGame server engine in Dafny

This project models the game-state engine of the CppGame tank server: the
`Board` with its grid, tank roster, wall list, player counter and bullet
list; the `Tank`, `Player`, `Bullet` and `Wall` entities; and the password
rule of the `PasswordManager` library. It proves what these operations do.

The board is a `class` whose methods rewrite its fields in place, as
`Board.cpp` does:
- `grid` is a `seq<seq<Cell>>` of (tile type, start flag);
- `players` is a `seq<Tank>` of tank objects;
- `walls` is a `seq<Wall>`;
- `bullets` is a `seq<Bullet>`.

Every method is proved against a value-level description of its effect, and
the game properties are proved about those descriptions:
- `Grid`: neighbour clearing, spawning and the bomb blast.
- `Generation`: the percentage table, the threshold fill, the square repair and the row/column repair.
- `Roster`: the ordered erase.
- `Render`: the character matrix.

Coordinate conventions follow the source:
- a tank's `x` is the row and `y` the column;
- wall entries are (column, row, type);
- a bullet starts at (column + 1, row + 1).

Inputs the source takes from the environment are parameters here:
- the `rand() % 100` rolls of GenerateBoard are a `seq<seq<int>>`, one value in [0, 100) per square, consumed row-major;
- the `rand() % 4` of RespawnPlayer is an integer `corner`;
- `steady_clock::now()` is an integer of milliseconds, `now`. The 4.0 s cooldown is 4000.

Files:
- `wrappers.dfy`: `Option`.
- `direction.dfy`: the facing.
- `password.dfy`: VerifyPassword.
- `player.dfy`, `tank.dfy`, `bullet.dfy`, `wall.dfy`: the entities.
- `grid.dfy`, `generation.dfy`, `roster.dfy`, `render.dfy`: the value-level descriptions.
- `board.dfy`: the `Board` class and the loop-level lemmas it uses.

Where the code and its documentation disagree, the model follows the code:
- The difficulty-2 ("normal") row of SetPercentages is (55, 20, 25, 10), which adds up to 110, not 100. The first three weights already cover every roll, so no bomb is ever placed at that difficulty. `Generation.TableDomain` and `Generation.NormalDifficultyHasNoBombs` state this.
- FixSquaring's nested `i`/`j` search never leaves row 0. Column `k` always passes the square test vacuously, so every call returns from row 0. The model is the column scan of row 0, which is what the code does.

## Model

| member | source | states |
|---|---|---|
| Passwords.LookaheadContains | PasswordManager/PasswordManager.cpp:6-7 | a `(?=.*[c])` lookahead at the start implies the class occurs; without line terminators the two are equivalent |
| Passwords.VerifyPasswordIff | PasswordManager/PasswordManager.cpp:4-8 | the regex matches exactly when the password is non-empty, has no `\n`/`\r`, and contains a lower-case letter, an upper-case letter, a digit and a character outside [a-zA-Z0-9] |
| Passwords.EmptyRejected | PasswordManager/PasswordManager.cpp:6-7 | the empty string is rejected (`.+` needs a character) |
| Passwords.LineTerminatorRejected | PasswordManager/PasswordManager.cpp:6-7 | any line feed or carriage return makes the whole match fail |
| Passwords.SpaceIsSymbol | PasswordManager/PasswordManager.cpp:6 | a space satisfies the symbol lookahead |
| Passwords.AppendKeepsAccepted | PasswordManager/PasswordManager.cpp:6-7 | appending characters other than line terminators keeps a password accepted |
| Passwords.ExampleAccepted | PasswordManager/PasswordManager.cpp:6-7 | "Abc123!@" is accepted |
| Passwords.ExampleNoUpperRejected | PasswordManager/PasswordManager.cpp:6-7 | "abc123!@" is rejected for lack of an upper-case letter |
| Passwords.ExampleNoDigitRejected | PasswordManager/PasswordManager.cpp:6-7 | "Abcdef!@" is rejected for lack of a digit |
| Players.Player.constructor | ProjectServer/Player.cpp:5-13 | id, name, password, high score, remaining lives and score are stored as given |
| Players.Player.Copy | ProjectServer/Board.cpp:371 | the copy made when a tank is pushed into the roster holds equal fields |
| Players.Player.SetScore | ProjectServer/Player.cpp:19-21 | only the score changes, to the given value |
| Players.Player.SetHighScore | ProjectServer/Player.cpp:43-45 | only the high score changes, to the given value |
| Players.Player.SetName | ProjectServer/Player.cpp:47-49 | only the name changes, to the given value |
| Players.Player.SetRemainingLives | ProjectServer/Player.cpp:51-53 | only the remaining lives change, to the given value |
| Players.Player.SetPassword | ProjectServer/Player.cpp:55-57 | only the password changes, to the given value |
| Players.Player.GetAnElimination | ProjectServer/Player.cpp:59-62 | the score rises by exactly one; the high score becomes the maximum of the old high score and the new score, so it never drops and is at least the score; id, name, password and lives are untouched |
| Tanks.Tank.constructor | ProjectServer/Tank.cpp:3-12 | the record is stored; the position is (0, 0); the tank is alive with speed 0; the last shot is one cooldown before `now`, so CanShoot(now) holds at once |
| Tanks.Tank.WithPosition | ProjectServer/Tank.cpp:14-23 | coordinates, speed and alive flag are stored verbatim; the tank can shoot at once |
| Tanks.Tank.Copy | ProjectServer/Board.cpp:371 | the copied tank has the same state as the original, its record included |
| Tanks.Tank.Destroy | ProjectServer/Tank.cpp:26-28 | the tank is no longer alive, and nothing else changes, so a second call changes nothing |
| Tanks.Tank.SetCoordX | ProjectServer/Tank.cpp:52-54 | only the row changes, to the given value |
| Tanks.Tank.SetCoordY | ProjectServer/Tank.cpp:56-58 | only the column changes, to the given value |
| Tanks.Tank.SetDirection | ProjectServer/Tank.cpp:60-63 | only the facing changes, to the given value |
| Tanks.Tank.CanShoot | ProjectServer/Tank.cpp:30-34 | with times in milliseconds, true exactly when the elapsed seconds since the last shot reach the cooldown of 4.0 |
| Tanks.Tank.SetLastShootTime | ProjectServer/Tank.cpp:65-68 | after stamping t, CanShoot(now) holds exactly when now >= t + 4000 |
| Tanks.Tank.SetSpeed | ProjectServer/Tank.cpp:70-72 | only the speed changes, to the given value |
| Bullets.Offset | ProjectServer/Bullet.cpp:13-23 | the net shift is the sum of the shifts of the direction's case label and of every label below it, since no case ends with a break |
| Bullets.Bullet.constructor | ProjectServer/Bullet.cpp:3-24 | a live bullet at speed 0.25 with a copy of the tank; the fall-through switch shifts (x, y) by (0, 0) for UP and LEFT, (0, +1) for DOWN and (+1, 0) for RIGHT |
| Bullets.Bullet.Destroy | ProjectServer/Bullet.cpp:26-30 | the bullet is inactive with speed 0 afterwards; on an inactive bullet nothing changes; position and direction are untouched |
| Bullets.Bullet.SetX | ProjectServer/Bullet.cpp:55-58 | only x changes, to the given value |
| Bullets.Bullet.SetY | ProjectServer/Bullet.cpp:60-63 | only y changes, to the given value |
| Bullets.Bullet.SetDirection | ProjectServer/Bullet.cpp:65-68 | only the direction changes, to the given value |
| Walls.Wall.constructor | ProjectServer/Wall.cpp:5-6 | (x, y, type) are stored as given |
| Walls.Wall.SetCoordX | ProjectServer/Wall.cpp:26-28 | only x changes, to the given value |
| Walls.Wall.SetCoordY | ProjectServer/Wall.cpp:30-32 | only y changes, to the given value |
| Walls.Wall.SetType | ProjectServer/Wall.cpp:34-36 | only the type changes, to the given value |
| Walls.Wall.TriggerExplosion | ProjectServer/Wall.cpp:38-50 | exactly nine pairwise distinct points (x+dx, y+dy) for dx, dy in {-1, 0, 1}, dx outermost, centre included, nothing clipped |
| Walls.Wall.IsDestructible | ProjectServer/Wall.cpp:18-20 | of the four tile types, exactly breakable walls and bombs (not empty, not unbreakable); no value outside the tile types |
| Walls.Wall.IsBomb | ProjectServer/Wall.cpp:22-24 | a bomb is always destructible |
| Grid.EmptyGrid | ProjectServer/Board.cpp:3-10 | the new board has height rows of width cells, all (0, false) |
| Grid.NeighbourOffsetsAreNeighbours | ProjectServer/Board.cpp:343-347 | the eight offsets are exactly the squares adjacent to the centre, the centre excluded |
| Grid.Cleared | ProjectServer/Board.cpp:341-358 | clearing keeps the grid's shape |
| Grid.ClearedIdempotent | ProjectServer/Board.cpp:341-358 | clearing never touches a start flag, and clearing twice equals clearing once |
| Grid.CornersOnBoard | ProjectServer/Board.cpp:157-176 | the four spawn squares (1,1), (1,w-2), (h-2,1), (h-2,w-2) lie on any board of at least 2 x 2 |
| Grid.CornersDistinct | ProjectServer/Board.cpp:377-391 | on a board of at least 4 x 4 the four spawn squares are pairwise distinct |
| Grid.Blasted | ProjectServer/Board.cpp:448-469 | the blast keeps the grid's shape |
| Grid.BlastedIdempotent | ProjectServer/Board.cpp:448-469 | a second identical blast changes nothing |
| Generation.PercentageTable | ProjectServer/Board.cpp:187-216 | a table exists exactly for difficulties 1..4, any other difficulty is the error (the source throws); every weight is non-negative and the weights cover every roll in [0, 100) |
| Generation.TableDomain | ProjectServer/Board.cpp:187-216 | rows 1, 3 and 4 add up to 100; row 2 adds up to 110, its first three weights to 100 |
| Generation.FillRowStep | ProjectServer/Board.cpp:229-250 | filling one more square classifies its roll against the bombs so far and appends its tile, and its wall unless the tile is empty |
| Generation.FillRowPrefix | ProjectServer/Board.cpp:229-250 | filling a prefix of a row's rolls gives the prefix of the filled row |
| Generation.FillRowCountsBombs | ProjectServer/Board.cpp:242-245 | the bomb counter after a row is the counter before it plus the bombs in the row |
| Generation.FillRowAt | ProjectServer/Board.cpp:230-249 | square c is the tile its roll yields by cumulative thresholds, with a bomb only while fewer than 3 + difficulty bombs precede it |
| Generation.FillRowKinds | ProjectServer/Board.cpp:230-249 | every filled square holds a tile type in 0..3 |
| Generation.FillRowBombCap | ProjectServer/Board.cpp:224-245 | starting at or under the cap, a row never takes the bomb count over it |
| Generation.FillRowWalls | ProjectServer/Board.cpp:234-245 | a row records exactly its non-empty squares as (column, row, type), in increasing column order |
| Generation.FillGridCountsBombs | ProjectServer/Board.cpp:224-253 | the bomb counter the fill carries equals the number of bomb squares it has placed |
| Generation.FillGridBounds | ProjectServer/Board.cpp:224-253 | the counter and the number of bomb squares on the filled board are at most 3 + difficulty, and every square holds a tile type in 0..3 |
| Generation.FillGridWalls | ProjectServer/Board.cpp:227-253 | the wall list holds exactly the non-empty squares as (column, row, type), in row-major order |
| Generation.NoBombsInRow | ProjectServer/Board.cpp:230-249 | when the first three weights cover every roll, a row gets no bomb |
| Generation.NormalDifficultyHasNoBombs | ProjectServer/Board.cpp:195-200 | at difficulty 2 the fill never places a bomb |
| Generation.FirstSquareColumn | ProjectServer/Board.cpp:269-296 | the least column j >= start at which rows [0, k) x columns [j, k) are all unbreakable; it exists and is at most k |
| Generation.FixSquareChangesOneCell | ProjectServer/Board.cpp:269-296 | one FixSquaring(k) writes exactly cell (0, j), for the least j in 0..k whose square is all unbreakable, and only empties it; every other cell and every start flag stays |
| Generation.FixSquareRoundsOnlyEmpties | ProjectServer/Board.cpp:255-264 | repeated squaring keeps every start flag and only ever writes empty tiles |
| Generation.RepairLeavesNoSolidLine | ProjectServer/Board.cpp:309-338 | afterwards no row is all 2 when width >= 2, and no column is all 2 when height >= 2 |
| Generation.RepairOnlyEmptiesSolidLines | ProjectServer/Board.cpp:309-338 | the repair keeps start flags, only writes 0, and only in a row that was all 2 or a column that was all 2 when checked |
| Generation.FilledIsPlain | ProjectServer/Board.cpp:224-253 | after the fill no square is a start position and every tile is in 0..3 |
| Generation.SquaringKeepsPlain | ProjectServer/Board.cpp:255-264 | the squaring loop keeps that |
| Generation.RepairKeepsPlain | ProjectServer/Board.cpp:309-338 | the row and column repair keeps that |
| Generation.FilledGridBombs | ProjectServer/Board.cpp:224-253 | the board built from the fill holds exactly the bombs the fill placed |
| Generation.GridBombsShrink | ProjectServer/Board.cpp:255-338 | a board on which every square kept its type or became empty holds no more bombs than before |
| Generation.SquaringKeepsBombCap | ProjectServer/Board.cpp:255-264 | the squaring loop never adds a bomb |
| Generation.RepairKeepsBombCap | ProjectServer/Board.cpp:309-338 | the row and column repair never adds a bomb |
| Generation.GeneratedBombCap | ProjectServer/Board.cpp:218-267 | a generated board holds at most 3 + difficulty bombs |
| Generation.GeneratedGridShape | ProjectServer/Board.cpp:218-267 | a generated board has no start position, only tile types 0..3, no all-2 row when width >= 2 and no all-2 column when height >= 2 |
| Roster.FirstAt | ProjectServer/Board.cpp:145-155 | find_if: none exactly when no slot is at (x, y); otherwise the least such slot |
| Roster.WithoutMembers | ProjectServer/Board.cpp:457-464 | a tank survives the erase exactly when it was in the roster and its square is not erased |
| Roster.WithoutAppend | ProjectServer/Board.cpp:457-464 | the erase distributes over concatenation, so the survivors keep their relative order |
| Roster.WithoutNone | ProjectServer/Board.cpp:457-464 | when no tank stands on an erased square the roster is unchanged |
| Roster.WithoutDistinct | ProjectServer/Board.cpp:457-464 | erasing keeps the tanks pairwise distinct |
| Roster.WithoutTwice | ProjectServer/Board.cpp:450-468 | erasing one region after another equals erasing their union |
| Render.TileChar | ProjectServer/Board.cpp:110-127 | no tile is drawn as 'P' (1 is '+', 2 is '#', everything else ' ') |
| Render.Border | ProjectServer/Board.cpp:92-94 | the border row is width + 2 '#' characters |
| Render.RowFrom | ProjectServer/Board.cpp:102-129 | the scan writes exactly one character per column |
| Render.MarksPositive | ProjectServer/Board.cpp:103-108 | a tank on the current column is always matched by the roster walk |
| Render.MarksCovered | ProjectServer/Board.cpp:103-108 | every column the walk steps over holds a tank |
| Render.LastColumnFreeIsSafe | ProjectServer/Board.cpp:102-110 | with no tank in the last column, the scan never reads past the row's end |
| Render.RenderShape | ProjectServer/Board.cpp:84-143 | height + 2 rows of width + 2 characters; the first and last rows are all '#'; each board row starts and ends with '#' |
| Render.RowFromSound | ProjectServer/Board.cpp:102-129 | a column shows 'P' only where a tank stands, otherwise its tile's character |
| Render.RowFromShowsTank | ProjectServer/Board.cpp:102-129 | a tank in the first column, or with no tank to its left, is shown as 'P' |
| Render.BoardCells | ProjectServer/Board.cpp:99-133 | the same two facts for every square of the whole matrix |
| Render.RosterOrderHidesTank | ProjectServer/Board.cpp:103-108 | tanks at (0,1) and (0,2), listed (0,2) first, on four empty squares: the row reads " P  ", and the tank at (0,2) is not shown |
| Render.IntendedRowFrom | ProjectServer/Board.cpp:102-129 | the corrected scan writes one character per column |
| Render.IntendedBoard | ProjectServer/Board.cpp:84-143 | the corrected matrix has height + 2 rows |
| Render.IntendedRowExact | ProjectServer/Board.cpp:102-129 | in the corrected scan a column shows 'P' exactly when a tank stands there, otherwise its tile's character |
| Render.IntendedBoardShowsTanks | ProjectServer/Board.cpp:84-143 | every square of the corrected matrix shows 'P' exactly when a tank stands on it |
| Render.ScansAgree | ProjectServer/Board.cpp:102-129 | when no two tanks of the row stand side by side, the source's scan and the corrected one write the same row |
| Boards.SteppedOneSquare | ProjectServer/Board.cpp:560-581 | a tank moves exactly when the target square is on the board and empty, and then by exactly one square onto it |
| Boards.HandledBounds | ProjectServer/Board.cpp:450-451 | the blast loop starts with nothing handled and ends having handled the whole on-board disk |
| Boards.Board.constructor | ProjectServer/Board.cpp:3-10 | an h x w grid of (0, false); no tanks, walls or bullets; player count 0 |
| Boards.Board.SetDifficultyAsValue | ProjectServer/Board.cpp:58-65 | stores the value when it is in 1..4 and 0 otherwise, so the percentage table exists exactly for an in-range value |
| Boards.Board.GetSpaceType | ProjectServer/Board.cpp:591-596 | the tile type on the board, -1 off it |
| Boards.Board.SetSpaceType | ProjectServer/Board.cpp:598-602 | on the board only that square's tile changes, and the getter then returns it; off the board nothing changes |
| Boards.Board.ClearSurroundings | ProjectServer/Board.cpp:341-358 | exactly the on-board neighbours become empty; centre, start flags and all other cells stay |
| Boards.Board.Respawn | ProjectServer/Board.cpp:178-184 | the tank is moved to (x, y); that square and its neighbours become empty |
| Boards.Board.RespawnPlayer | ProjectServer/Board.cpp:157-176 | corner 0..3 respawns at (1,1), (1,w-2), (h-2,1), (h-2,w-2); any other value is the error path and changes nothing |
| Boards.Board.StartAt | ProjectServer/Board.cpp:400-438 | the square becomes an empty start position, its neighbours are cleared, and the slot's tank moves there |
| Boards.Board.InsertPlayer | ProjectServer/Board.cpp:369-398 | a copy is appended and the count rises; join n = 1..4 takes the n-th spawn square when its guard passes; join 5 or later fails only after appending and counting |
| Boards.Board.Move | ProjectServer/Board.cpp:554-582 | the key sets the facing (other keys keep it); the tank steps one square exactly when the target is on the board and empty; the grid and every other tank are unchanged |
| Boards.KeyDirection | ProjectServer/Board.cpp:555-558 | W/w selects up, S/s down, A/a left and D/d right; any other key keeps the current facing |
| Boards.Board.Turn | ProjectServer/Board.cpp:555-558 | W/S/A/D in either case select up/down/left/right; any other key keeps the facing |
| Boards.Board.Advance | ProjectServer/Board.cpp:560-581 | the position becomes Stepped of the facing |
| Boards.Board.Shoot | ProjectServer/Board.cpp:522-536 | when the cooldown has passed, the shot time is stamped and a live bullet is appended at (column + 1, row + 1) plus the constructor's offset, carrying a copy of the tank; otherwise nothing changes |
| Boards.Board.VerifyIfCoordIsPlayer | ProjectServer/Board.cpp:440-446 | true exactly when some tank of the roster stands at (x, y) |
| Boards.Board.GetPlayerBasedOnCoord | ProjectServer/Board.cpp:145-155 | a copy of the first tank at (x, y), or none exactly when no tank stands there |
| Boards.Board.EraseAt | ProjectServer/Board.cpp:457-464 | the roster loses exactly the tanks at (i, j), keeping the others in order and distinct |
| Boards.Board.BlastAt | ProjectServer/Board.cpp:452-465 | a breakable wall at (i, j) becomes empty; every tank there is erased |
| Boards.Board.BlastStep | ProjectServer/Board.cpp:452-466 | extends the blasted and erased region by (i, j) when it is on the board and in the disk |
| Boards.Board.BlastRow | ProjectServer/Board.cpp:451-467 | extends the blasted and erased region by one row of the blast square |
| Boards.Board.TriggerBomb | ProjectServer/Board.cpp:448-469 | every on-board square within Manhattan distance 10 turns from 1 to 0 (0, 2 and 3 stay); every tank on such a square is erased; the other cells and tanks stay, the tanks in order |
| Boards.Board.PlaceSquare | ProjectServer/Board.cpp:230-249 | the tile a roll yields by cumulative thresholds; a bomb raises the counter |
| Boards.Board.FillRowSquares | ProjectServer/Board.cpp:229-252 | the row's cells are the filled tiles with start flags false; a fresh wall is created for each non-empty square, in column order |
| Boards.Board.FillBoard | ProjectServer/Board.cpp:224-253 | the grid becomes the filled grid, and the wall list is rebuilt from scratch as the fill's entries |
| Boards.Board.IsSquare | ProjectServer/Board.cpp:277-287 | the nested check answers whether rows [0, k) x columns [j, k) are all unbreakable |
| Boards.Board.FixSquaring | ProjectServer/Board.cpp:269-296 | the grid becomes FixSquare(old grid, k): exactly one cell emptied |
| Boards.Board.FixRowsAndColumns | ProjectServer/Board.cpp:309-338 | every all-2 row has its first width / 2 cells emptied, then every all-2 column its first height / 2 cells |
| Boards.Board.SquaringLoop | ProjectServer/Board.cpp:255-264 | min(h, w) - 2 calls of FixSquaring(min(h, w) - 1), none when the smaller side is below 3 |
| Boards.Board.Generate | ProjectServer/Board.cpp:224-266 | the fill, the squaring loop and the repair produce GeneratedGrid; the wall list is the fill's, recorded before the repairs |
| Boards.Board.GenerateBoard | ProjectServer/Board.cpp:218-267 | succeeds exactly for difficulty 1..4 and then produces the generated grid and wall list; otherwise nothing changes |
| Boards.Board.TankMarks | ProjectServer/Board.cpp:103-108 | the roster walk emits one 'P' and moves one column for each tank matched |
| Boards.Board.RenderRow | ProjectServer/Board.cpp:99-133 | a board row is '#', the scan of the row, '#' |
| Boards.Board.GetBoardState | ProjectServer/Board.cpp:84-143 | the matrix is the top border, the scanned rows and the bottom border |

## Left out

- ProjectServer/main.cpp (the HTTP routes, the database storage, the game timer thread and its mutex) is not part of this model.
- Boards.Board.Move and Boards.Board.Shoot require a real roster slot `0 <= idx < |players|`. The action route passes the player's database id instead (an autoincrement key, so the first is 1), and the source uses it as an unchecked roster index; a returning player is never added to the roster at all. The model leaves out that mismatch and the out-of-range read it causes.
- ProjectServer/PlayerDatabase.h is not part of this model: it is a schema declaration with no logic.
- Board::Shoot's detached bullet thread, Board::Update and Bullet::LockMutex are left out. They are concurrency, and Update advances double coordinates by speed x elapsed time. Their defects are not modelled either:
  - the bomb test after the tile was already set to 0 (ProjectServer/Board.cpp:507);
  - the respawn acting on a copy (ProjectServer/Board.cpp:512-514).
- Board::SetDifficulty (console input), SetHeight and SetWidth (random sizes), GenerateWalls (an unused duplicate), GetPlayerState and the JSON wrapping are left out. So are the methods Board.h declares without a body. GetBoardState is modelled as a `seq<seq<char>>`.
- The SDL client is not part of this model: it is UI and network code.
- Boards.Board.TriggerBomb: the source takes double coordinates. It truncates x - 10 and y - 10 to int and measures the distance in doubles. The model takes integer coordinates. Its only call site (ProjectServer/Board.cpp:507-508) tests a tile it has just set to 0, so it is never reached; if it were, it would pass bullet coordinates, which move in steps of 0.25 and can be fractional. The model does not cover fractional centres.
- Boards.Board.GetSpaceType and Boards.Board.SetSpaceType: the source takes doubles and converts them to indices. The model takes integers.
- Tanks.Tank.SetCoordX and Tanks.Tank.SetCoordY: the source takes a double argument and truncates it into an int field (ProjectServer/Tank.h:21-22). The model takes the int.
- Tanks.Tank.constructor: the source never initialises the facing, so the caller supplies it.
- Tanks.Tank.SetLastShootTime: time is integer milliseconds, and the source's comparison of double seconds against 4.0 becomes an integer comparison against 4000.
- Boards.Board.Move and Boards.Board.Advance require StepInRange: when the one-sided bound test passes, the square read is on the board. The source reads out of range otherwise, for example on a tank standing off the board.
- Boards.Board.InsertPlayer requires InsertionFits. When a spawn square is assigned, the counter equals the roster size, so the slot the source writes is the new last slot. After a bomb erased tanks, the counter is stale and the source writes out of range.
- Boards.Board.GetBoardState requires height >= 1, because the source reads the size of m_board[0], which a board with no rows does not have.
- Boards.Board.Respawn requires that (x, y) lies on the board, because the source writes m_board[x][y] without a check and would write out of range otherwise.
- Boards.Board.RespawnPlayer requires that the chosen corner lies on the board, which is the precondition of Boards.Board.Respawn that it calls. On a board with fewer than two rows or two columns the corner (1, 1), (1, w-2), (h-2, 1) or (h-2, w-2) can fall off it, and the source then writes out of range.
- Boards.Board.GetBoardState requires BoardSafe: no roster walk runs past the row's end. Render.LastColumnFreeIsSafe shows that it is enough that no tank stands in the last column. The source reads past the row otherwise.
- Boards.Board.GenerateBoard requires height >= 1, because the source reads the first row's size.
- Boards.Board.TriggerBomb does not lower the player counter; neither does the source.
- Roster.Without is stated over regions of squares (`iset`), so the erase results are ghost. The erase itself works on a local copy of the roster that is assigned back at the end, rather than with iterators.
- Players.Player.GetAnElimination: integer overflow of the score is not modelled; scores are unbounded.
- Bullets.Bullet.constructor: positions and speed are reals, which hold the source's doubles here exactly (integers, +/-1.0 and 0.25).

## Findings

| source | as written | input that shows it | evidently intended | confidence | as-written member | corrected member |
|---|---|---|---|---|---|---|
| ProjectServer/Board.cpp:103-108 | the roster walk is done once per column and bumps the column on each match, so it only finds a run of adjacent tanks when the roster lists them left to right | tanks at (0,1) and (0,2), the roster listing (0,2) first, on a row of four empty squares: the row reads " P  " and the tank at (0,2) is missing | every square with a tank shows 'P' | high, not executed | Render.RosterOrderHidesTank | Render.IntendedBoardShowsTanks |

`Boards.Board.GetBoardState` keeps the scan as written. `Render.ScansAgree` proves that the two scans agree whenever no two tanks of a row stand side by side.
