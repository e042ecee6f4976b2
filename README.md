# Low-level-design exercises, modelled in Dafny

This project models the sequential core of a collection of object-oriented design exercises: elevator
cars with a dispatcher, an LRU cache, a Unix-style file search, snakes and ladders, movie ticket
booking, hotel management, a vending machine, a pizza shop, chess move rules and a parking garage.
Several exercises exist as a `practice/` and a `solutions/` copy (and the elevator and chess
exercises also at the top level); the copies differ in small ways, including defects, so each
source file is its own Dafny module, and defects are reproduced as the code has them, not fixed.

| Dafny file | module | source file |
|---|---|---|
| common.dfy | Common | shared Option / Result / Outcome types and decimal text helpers |
| elevator_practice.dfy | ElevatorPractice | lld/python/practice/elevator-system.py |
| elevator_solutions.dfy | ElevatorSolutions | lld/python/solutions/elevator-system.py |
| elevator_root.dfy | ElevatorRoot | lld/python/elevator-system.py |
| lru_practice.dfy | LruPractice | lld/python/practice/lru-cache.py |
| lru_solutions.dfy | LruSolutions | lld/python/solutions/lru-cache.py |
| unix_search_solutions.dfy | UnixSearchSolutions | lld/python/solutions/unix-search-api.py |
| unix_search_practice.dfy | UnixSearchPractice | lld/python/practice/unix-search-api.py |
| snakes_solutions.dfy | SnakesSolutions | lld/python/solutions/snakes-and-ladders.py |
| snakes_practice.dfy | SnakesPractice | lld/python/practice/snakes-and-ladders.py |
| movie_solutions.dfy | MovieSolutions | lld/python/solutions/movie-ticket-booking-system.py |
| movie_practice.dfy | MoviePractice | lld/python/practice/movie-ticket-booking-system.py |
| hotel_practice.dfy | HotelPractice | lld/python/practice/hotel-management-system.py |
| vending_machine.dfy | Vending | lld/python/vending-machine.py |
| pizza_solutions.dfy | PizzaSolutions | lld/python/solutions/pizza-shop.py |
| pizza_practice.dfy | PizzaPractice | lld/python/practice/pizza-shop.py |
| chess_practice.dfy | ChessPractice | lld/python/practice/chess.py |
| chess_root.dfy | ChessRoot | lld/python/chess.py |
| parking_solutions.dfy | ParkingSolutions | lld/python/solutions/parking-garage.py |

Objects whose fields the code updates in place are Dafny classes whose methods state their whole new
state, usually as a specification function of the old state; the properties the design promises are
then lemmas about those functions. Pure rules (move geometry, filters, order transitions) are
functions with lemmas. Exceptions become `Outcome`/`Result` values naming the Python exception.

## Model

| member | source | states |
|---|---|---|
| ElevatorPractice.EnqueueKeepsCapacity | lld/python/practice/elevator-system.py:25-30 | offering a request never lets a queue exceed the car's capacity; a full queue is returned unchanged, otherwise the request is appended at the tail after the old queue |
| ElevatorPractice.PathSteps | lld/python/practice/elevator-system.py:38-48 | the floors passed on the way to a target number exactly the distance, each step moves one floor towards the target, and the last one is the target |
| ElevatorPractice.NoOpLegs | lld/python/practice/elevator-system.py:50-63 | a request from the car's own floor to that same floor skips both legs and passes no floor |
| ElevatorPractice.ServeTraceSteps | lld/python/practice/elevator-system.py:50-63 | serving a request passes abs(car - source) + abs(source - destination) floors, one floor per step starting next to the car, and ends at the destination |
| ElevatorPractice.ServeAllFifo | lld/python/practice/elevator-system.py:65-69 | serving a queue ends at the last request's destination, and requests queued behind it are served only after all of it, starting from that floor |
| ElevatorPractice.Elevator.constructor | lld/python/practice/elevator-system.py:15-23 | a new car is at floor 1, going up, with an empty queue, running, with the given id and capacity |
| ElevatorPractice.Elevator.AddRequest | lld/python/practice/elevator-system.py:25-30 | the queue becomes the request appended below capacity and stays unchanged (silently) when full; the capacity invariant holds |
| ElevatorPractice.Elevator.GetNextRequest | lld/python/practice/elevator-system.py:32-36 | removes and returns the head of the queue (FIFO); a stopped car with an empty queue returns None and keeps its queue |
| ElevatorPractice.Elevator.MoveToFloor | lld/python/practice/elevator-system.py:38-48 | a running car ends at the target having passed exactly the unit-step path, with the direction of its last step; a stopped car does not move |
| ElevatorPractice.Elevator.ProcessRequest | lld/python/practice/elevator-system.py:50-63 | a running car passes the pickup and drop-off legs (each skipped when empty) and ends at the destination; a stopped car does not move |
| ElevatorPractice.Elevator.Run | lld/python/practice/elevator-system.py:65-69 | while running the car serves its whole queue in FIFO order, ending empty at the floor and direction the ordered service reaches; a stopped car changes nothing |
| ElevatorPractice.Elevator.Stop | lld/python/practice/elevator-system.py:71-74 | the car is no longer running and nothing else changes |
| ElevatorPractice.SelectIndex | lld/python/practice/elevator-system.py:87-90 | the chosen car has a key (distance to the source floor, queue length) no greater than any car's, and strictly smaller than every earlier car's, which is Python's first-minimum rule for `min` |
| ElevatorPractice.SelectIndexUnique | lld/python/practice/elevator-system.py:87-90 | any car that is minimal and beats all earlier cars is the one selected, so the selection is determined by the key alone |
| ElevatorPractice.SnapshotsOf | lld/python/practice/elevator-system.py:89-90 | the dispatcher's view of each car is its current floor and its queue length, one per car in fleet order |
| ElevatorPractice.ElevatorController.constructor | lld/python/practice/elevator-system.py:77-80 | builds the given number of fresh cars with ids 1..n, each at floor 1, going up, empty and running |
| ElevatorPractice.ElevatorController.FindOptimalElevator | lld/python/practice/elevator-system.py:87-90 | an empty fleet raises IndexError; otherwise returns the car chosen by the lexicographic key with the first car winning ties |
| ElevatorPractice.ElevatorController.RequestElevator | lld/python/practice/elevator-system.py:82-85 | an empty fleet raises IndexError; otherwise only the selected car's queue changes, receiving the request under the capacity rule; floors, directions and running flags are unchanged |
| ElevatorPractice.ElevatorController.Shutdown | lld/python/practice/elevator-system.py:92-94 | every car is stopped and keeps its floor, direction and queue |
| ElevatorPractice.DispatchScenario | lld/python/practice/elevator-system.py:96-107 | three idle cars at floor 1 tie on a call at floor 10 and the first car is chosen; a busy car further away loses to a nearer idle one |
| ElevatorSolutions.EnqueueKeepsCapacity | lld/python/solutions/elevator-system.py:68-73 | offering a request never lets a queue exceed the capacity; a full queue is returned unchanged, otherwise the request is appended at the tail |
| ElevatorSolutions.PathSteps | lld/python/solutions/elevator-system.py:81-91 | the floors passed towards a target number exactly the distance, each step moves one floor towards the target, and the last one is the target |
| ElevatorSolutions.NoOpLegs | lld/python/solutions/elevator-system.py:93-104 | a request from the car's own floor to that same floor skips both legs and passes no floor |
| ElevatorSolutions.ServeTraceSteps | lld/python/solutions/elevator-system.py:93-104 | serving a request passes abs(car - source) + abs(source - destination) floors, one floor per step starting next to the car, ending at the destination |
| ElevatorSolutions.Elevator.constructor | lld/python/solutions/elevator-system.py:58-66 | a new car is at floor 1, going up, with an empty queue, running, with the given id and capacity |
| ElevatorSolutions.Elevator.AddRequests | lld/python/solutions/elevator-system.py:68-73 | the queue becomes the request appended below capacity and stays unchanged (silently) when full; the capacity invariant holds |
| ElevatorSolutions.Elevator.GetNextRequest | lld/python/solutions/elevator-system.py:75-79 | removes and returns the head of the queue (FIFO); a stopped car with an empty queue returns None and keeps its queue |
| ElevatorSolutions.Elevator.MoveToFloor | lld/python/solutions/elevator-system.py:81-91 | a running car ends at the target having passed exactly the unit-step path, with the direction of its last step; a stopped car does not move |
| ElevatorSolutions.Elevator.ProcessRequest | lld/python/solutions/elevator-system.py:93-104 | a running car passes the pickup and drop-off legs (each skipped when empty) and ends at the destination; a stopped car does not move |
| ElevatorSolutions.Elevator.Run | lld/python/solutions/elevator-system.py:106-109 | as written the worker only stops the car: afterwards it is not running and nothing else changes |
| ElevatorSolutions.Elevator.Stop | lld/python/solutions/elevator-system.py:111-114 | the car is no longer running and nothing else changes |
| ElevatorSolutions.SelectIndex | lld/python/solutions/elevator-system.py:127-129 | the chosen car has a key (distance to the source floor, queue length) no greater than any car's and strictly smaller than every earlier car's: Python's first-minimum rule for `min` |
| ElevatorSolutions.SelectIndexUnique | lld/python/solutions/elevator-system.py:127-129 | any car that is minimal and beats all earlier cars is the one selected |
| ElevatorSolutions.SnapshotsOf | lld/python/solutions/elevator-system.py:129 | the dispatcher's view of each car is its current floor and its queue length, one per car in fleet order |
| ElevatorSolutions.ElevatorController.constructor | lld/python/solutions/elevator-system.py:117-120 | builds the given number of fresh cars with ids 1..n at floor 1, going up and empty; starting each worker leaves every car stopped |
| ElevatorSolutions.ElevatorController.FindOptimalElevator | lld/python/solutions/elevator-system.py:127-129 | an empty fleet raises IndexError; otherwise returns the car chosen by the lexicographic key, the first car winning ties |
| ElevatorSolutions.ElevatorController.RequestElevator | lld/python/solutions/elevator-system.py:122-125 | never succeeds: an empty fleet raises IndexError, otherwise the call to the undefined `add_request` raises AttributeError, and no car changes |
| ElevatorSolutions.ElevatorController.Shutdown | lld/python/solutions/elevator-system.py:131-133 | every car is stopped and keeps its floor, direction and queue |
| ElevatorSolutions.DispatchScenario | lld/python/solutions/elevator-system.py:135-146 | three idle cars at floor 1 tie on a call at floor 10 and the first car is chosen; a busy car further away loses to a nearer idle one |
| ElevatorRoot.EnqueueKeepsCapacity | lld/python/elevator-system.py:68-73 | offering a request never lets a queue exceed the capacity; a full queue is returned unchanged, otherwise the request is appended at the tail |
| ElevatorRoot.PathSteps | lld/python/elevator-system.py:81-91 | the floors passed towards a target number exactly the distance, each step moves one floor towards the target, and the last one is the target |
| ElevatorRoot.NoOpLegs | lld/python/elevator-system.py:93-104 | a request from the car's own floor to that same floor skips both legs and passes no floor |
| ElevatorRoot.ServeTraceSteps | lld/python/elevator-system.py:93-104 | serving a request passes abs(car - source) + abs(source - destination) floors, one floor per step starting next to the car, ending at the destination |
| ElevatorRoot.Elevator.constructor | lld/python/elevator-system.py:58-66 | a new car is at floor 1, going up, with an empty queue, running, with the given id and capacity |
| ElevatorRoot.Elevator.AddRequests | lld/python/elevator-system.py:68-73 | the queue becomes the request appended below capacity and stays unchanged (silently) when full; the capacity invariant holds |
| ElevatorRoot.Elevator.GetNextRequest | lld/python/elevator-system.py:75-79 | removes and returns the head of the queue (FIFO); a stopped car with an empty queue returns None and keeps its queue |
| ElevatorRoot.Elevator.MoveToFloor | lld/python/elevator-system.py:81-91 | a running car ends at the target having passed exactly the unit-step path, with the direction of its last step; a stopped car does not move |
| ElevatorRoot.Elevator.ProcessRequest | lld/python/elevator-system.py:93-104 | a running car passes the pickup and drop-off legs (each skipped when empty) and ends at the destination; a stopped car does not move |
| ElevatorRoot.Elevator.Run | lld/python/elevator-system.py:106-109 | as written the worker only stops the car: afterwards it is not running and nothing else changes |
| ElevatorRoot.Elevator.Stop | lld/python/elevator-system.py:111-114 | the car is no longer running and nothing else changes |
| ElevatorRoot.SelectIndex | lld/python/elevator-system.py:127-129 | the chosen car has a key (distance to the source floor, queue length) no greater than any car's and strictly smaller than every earlier car's: Python's first-minimum rule for `min` |
| ElevatorRoot.SelectIndexUnique | lld/python/elevator-system.py:127-129 | any car that is minimal and beats all earlier cars is the one selected |
| ElevatorRoot.SnapshotsOf | lld/python/elevator-system.py:129 | the dispatcher's view of each car is its current floor and its queue length, one per car in fleet order |
| ElevatorRoot.ElevatorController.constructor | lld/python/elevator-system.py:117-120 | builds the given number of fresh cars with ids 1..n at floor 1, going up and empty; starting each worker leaves every car stopped |
| ElevatorRoot.ElevatorController.FindOptimalElevator | lld/python/elevator-system.py:127-129 | an empty fleet raises IndexError; otherwise returns the car chosen by the lexicographic key, the first car winning ties |
| ElevatorRoot.ElevatorController.RequestElevator | lld/python/elevator-system.py:122-125 | never succeeds: an empty fleet raises IndexError, otherwise the call to the undefined `add_request` raises AttributeError, and no car changes |
| ElevatorRoot.ElevatorController.Shutdown | lld/python/elevator-system.py:131-133 | every car is stopped and keeps its floor, direction and queue |
| ElevatorRoot.DispatchScenario | lld/python/elevator-system.py:135-146 | three idle cars at floor 1 tie on a call at floor 10 and the first car is chosen; a busy car further away loses to a nearer idle one |
| LruPractice.GetResultSpec | lld/python/practice/lru-cache.py:20-25 | on a cache whose keys are distinct, `get` returns a value exactly when that key-value entry is stored |
| LruPractice.GetSpec | lld/python/practice/lru-cache.py:20-52 | `get` hits exactly when the key is stored; the entries are only reordered, keys stay distinct, and a hit key becomes most recently used |
| LruPractice.PutExisting | lld/python/practice/lru-cache.py:28-31 | `put` of a stored key keeps the size, makes the new entry the most recent, and leaves every other entry behind it in its previous order |
| LruPractice.PutNew | lld/python/practice/lru-cache.py:32-38 | `put` of a new key makes it the most recent entry with the older entries following in their order; below capacity it adds exactly that entry, at capacity it also drops exactly the least recent one |
| LruPractice.PutSpec | lld/python/practice/lru-cache.py:27-38 | after `put` the key holds the new value as most recently used, keys stay distinct, the size stays within capacity, and updating a stored key keeps the size |
| LruPractice.PutKeepsOthers | lld/python/practice/lru-cache.py:27-38 | every other entry after `put` was already in the cache, and an update leaves no second copy of the key |
| LruPractice.PutEvictsLeastRecent | lld/python/practice/lru-cache.py:33-57 | `put` of a new key into a full cache evicts exactly the least recently used entry and the evicted key is no longer stored |
| LruPractice.IndexedKeys | lld/python/practice/lru-cache.py:14-18 | the dictionary's keys are exactly the keys on the list between the sentinels, each once |
| LruPractice.Node.constructor | lld/python/practice/lru-cache.py:1-6 | a new node holds its key and value and is not linked |
| LruPractice.LruCache.constructor | lld/python/practice/lru-cache.py:10-18 | a positive capacity gives an empty cache whose sentinels point at each other |
| LruPractice.LruCache.AddToHead | lld/python/practice/lru-cache.py:40-44 | the node is linked right after the head sentinel and the list stays doubly linked |
| LruPractice.LruCache.RemoveNode | lld/python/practice/lru-cache.py:46-48 | the node is unlinked from its place and the rest of the list stays doubly linked in order |
| LruPractice.LruCache.MoveToHead | lld/python/practice/lru-cache.py:50-52 | the node moves from its place to right after the head, the others keeping their order |
| LruPractice.LruCache.RemoveTail | lld/python/practice/lru-cache.py:54-57 | returns the node before the tail sentinel (the least recently used) and unlinks it |
| LruPractice.LruCache.Get | lld/python/practice/lru-cache.py:20-25 | returns the value of a stored key and marks it most recently used; a miss returns None and changes nothing |
| LruPractice.LruCache.Put | lld/python/practice/lru-cache.py:27-38 | the cache becomes the specified `put` result (update and refresh, or insert with least-recent eviction when full) and the linked-list invariants hold |
| LruPractice.NewCache | lld/python/practice/lru-cache.py:10-18 | a capacity of 0 or less raises ValueError; otherwise a fresh empty cache of that capacity |
| LruPractice.DemoRun | lld/python/practice/lru-cache.py:60-79 | the demonstration sequence: after put 1, 2, 3, get 1, get 2 and put 4, key 3 is gone while 1, 2 and 4 remain, and re-putting 2 returns its new value |
| LruSolutions.GetResultSpec | lld/python/solutions/lru-cache.py:20-25 | on a cache whose keys are distinct, `get` returns a value exactly when that key-value entry is stored |
| LruSolutions.GetSpec | lld/python/solutions/lru-cache.py:20-52 | `get` hits exactly when the key is stored; the entries are only reordered, keys stay distinct, and a hit key becomes most recently used |
| LruSolutions.PutExisting | lld/python/solutions/lru-cache.py:28-31 | `put` of a stored key keeps the size, makes the new entry the most recent, and leaves every other entry behind it in its previous order |
| LruSolutions.PutNew | lld/python/solutions/lru-cache.py:32-38 | `put` of a new key makes it the most recent entry with the older entries following in their order; below capacity it adds exactly that entry, at capacity it also drops exactly the least recent one |
| LruSolutions.PutSpec | lld/python/solutions/lru-cache.py:27-38 | after `put` the key holds the new value as most recently used, keys stay distinct, the size stays within capacity, and updating a stored key keeps the size |
| LruSolutions.PutKeepsOthers | lld/python/solutions/lru-cache.py:27-38 | every other entry after `put` was already in the cache, and an update leaves no second copy of the key |
| LruSolutions.PutEvictsLeastRecent | lld/python/solutions/lru-cache.py:33-57 | `put` of a new key into a full cache evicts exactly the least recently used entry and the evicted key is no longer stored |
| LruSolutions.IndexedKeys | lld/python/solutions/lru-cache.py:14-18 | the dictionary's keys are exactly the keys on the list between the sentinels, each once |
| LruSolutions.Node.constructor | lld/python/solutions/lru-cache.py:1-6 | a new node holds its key and value and is not linked |
| LruSolutions.LruCache.constructor | lld/python/solutions/lru-cache.py:9-18 | a positive capacity gives an empty cache whose sentinels point at each other |
| LruSolutions.LruCache.AddToHead | lld/python/solutions/lru-cache.py:40-44 | the node is linked right after the head sentinel and the list stays doubly linked |
| LruSolutions.LruCache.RemoveNode | lld/python/solutions/lru-cache.py:46-48 | the node is unlinked from its place and the rest of the list stays doubly linked in order |
| LruSolutions.LruCache.MoveToHead | lld/python/solutions/lru-cache.py:50-52 | the node moves from its place to right after the head, the others keeping their order |
| LruSolutions.LruCache.RemoveTail | lld/python/solutions/lru-cache.py:54-57 | returns the node before the tail sentinel (the least recently used) and unlinks it |
| LruSolutions.LruCache.Get | lld/python/solutions/lru-cache.py:20-25 | returns the value of a stored key and marks it most recently used; a miss returns None and changes nothing |
| LruSolutions.LruCache.Put | lld/python/solutions/lru-cache.py:27-38 | the cache becomes the specified `put` result (update and refresh, or insert with least-recent eviction when full) and the linked-list invariants hold |
| LruSolutions.NewCache | lld/python/solutions/lru-cache.py:9-18 | a capacity of 0 or less raises ValueError; otherwise a fresh empty cache of that capacity |
| LruSolutions.DemoRun | lld/python/solutions/lru-cache.py:60-78 | the demonstration sequence: after put 1, 2, 3, get 1, get 2 and put 4, key 3 is gone while 1, 2 and 4 remain, and re-putting 2 returns its new value |
| UnixSearchSolutions.LastDotSpec | lld/python/solutions/unix-search-api.py:61-64 | the position `rfind` finds holds a '.' with no '.' after it, and there is none exactly when the name holds no '.' |
| UnixSearchSolutions.LastDotAt | lld/python/solutions/unix-search-api.py:61-64 | the last '.' of a name is the one `rfind` finds, and the extension is the text after it |
| UnixSearchSolutions.ExtensionSpec | lld/python/solutions/unix-search-api.py:61-64 | the extension holds no '.', is "" for a name without '.', and otherwise is the name's suffix that follows its last '.' |
| UnixSearchSolutions.SizeIsFileTotal | lld/python/solutions/unix-search-api.py:58-82 | a directory's size, summed recursively over its entries, equals the total content length of all files at any depth below it |
| UnixSearchSolutions.IsValid | lld/python/solutions/unix-search-api.py:139-152 | running the four filters in order accepts a file exactly when it meets every criterion: name equal, size at least min, size at most max, extension equal, each criterion skipped when unset |
| UnixSearchSolutions.EmptyQueryMatchesAll | lld/python/solutions/unix-search-api.py:104-137 | a query with no criterion set accepts every file |
| UnixSearchSolutions.SelectMember | lld/python/solutions/unix-search-api.py:165-170 | the files collected from one directory's entries are exactly its entries that are files and match the query |
| UnixSearchSolutions.ScanEntries | lld/python/solutions/unix-search-api.py:165-170 | scanning a directory's entries appends its subdirectories to the queue and its matching files to the result, both in list order |
| UnixSearchSolutions.Search | lld/python/solutions/unix-search-api.py:158-171 | the search returns exactly the breadth-first result specified from the root |
| UnixSearchSolutions.SearchRound | lld/python/solutions/unix-search-api.py:162-170 | one round of the search: the results so far plus the first directory's matching files continue with the rest of the queue and the new subdirectories; the queue's measure shrinks |
| UnixSearchSolutions.BfsStep | lld/python/solutions/unix-search-api.py:162-170 | a breadth-first round collects the first directory's matching files, then continues with its subdirectories queued at the back, and the search terminates |
| UnixSearchSolutions.BfsFindsExactly | lld/python/solutions/unix-search-api.py:158-171 | as a multiset, the search from a queue returns exactly the matching files below the queued directories |
| UnixSearchSolutions.SearchFindsExactly | lld/python/solutions/unix-search-api.py:158-171 | the search from a root returns exactly the matching files at any depth below it, each as often as it occurs, and never a directory |
| UnixSearchSolutions.RootFilesFirst | lld/python/solutions/unix-search-api.py:158-171 | breadth-first order: the root's own matching files come first, in list order |
| UnixSearchSolutions.SampleMatches | lld/python/solutions/unix-search-api.py:175-191 | the sample query (xml, size 2..100) accepts aaa.xml and rejects bbb.txt and ccc.json |
| UnixSearchSolutions.MainQuery | lld/python/solutions/unix-search-api.py:173-207 | the sample search over dir0 returns only aaa.xml |
| UnixSearchPractice.LastDotSpec | lld/python/practice/unix-search-api.py:56-59 | the position `rfind` finds holds a '.' with no '.' after it, and there is none exactly when the name holds no '.' |
| UnixSearchPractice.LastDotAt | lld/python/practice/unix-search-api.py:56-59 | the last '.' of a name is the one `rfind` finds, and the extension is the text after it |
| UnixSearchPractice.ExtensionSpec | lld/python/practice/unix-search-api.py:56-59 | the extension holds no '.', is "" for a name without '.', and otherwise is the name's suffix that follows its last '.' |
| UnixSearchPractice.SizeIsFileTotal | lld/python/practice/unix-search-api.py:53-79 | a directory's size, summed recursively over its entries, equals the total content length of all files at any depth below it |
| UnixSearchPractice.IsValid | lld/python/practice/unix-search-api.py:146-163 | running the four filters in order accepts a file exactly when it meets every criterion: name equal, size at least min, size at most max, extension equal, each criterion skipped when unset |
| UnixSearchPractice.EmptyQueryMatchesAll | lld/python/practice/unix-search-api.py:110-143 | a query with no criterion set accepts every file |
| UnixSearchPractice.SelectMember | lld/python/practice/unix-search-api.py:182-188 | the files collected from one directory's entries are exactly its entries that are files and match the query |
| UnixSearchPractice.ScanEntries | lld/python/practice/unix-search-api.py:182-188 | scanning a directory's entries appends its subdirectories to the queue and its matching files to the result, both in list order |
| UnixSearchPractice.Search | lld/python/practice/unix-search-api.py:175-189 | the search returns exactly the breadth-first result specified from the root |
| UnixSearchPractice.SearchRound | lld/python/practice/unix-search-api.py:179-188 | one round of the search: the results so far plus the first directory's matching files continue with the rest of the queue and the new subdirectories; the queue's measure shrinks |
| UnixSearchPractice.BfsStep | lld/python/practice/unix-search-api.py:179-188 | a breadth-first round collects the first directory's matching files, then continues with its subdirectories queued at the back, and the search terminates |
| UnixSearchPractice.BfsFindsExactly | lld/python/practice/unix-search-api.py:175-189 | as a multiset, the search from a queue returns exactly the matching files below the queued directories |
| UnixSearchPractice.SearchFindsExactly | lld/python/practice/unix-search-api.py:175-189 | the search from a root returns exactly the matching files at any depth below it, each as often as it occurs, and never a directory |
| UnixSearchPractice.RootFilesFirst | lld/python/practice/unix-search-api.py:175-189 | breadth-first order: the root's own matching files come first, in list order |
| UnixSearchPractice.SampleMatches | lld/python/practice/unix-search-api.py:194-210 | the sample query (xml, size 2..100) accepts aaa.xml and rejects bbb.txt and ccc.json |
| UnixSearchPractice.MainQuery | lld/python/practice/unix-search-api.py:192-226 | the sample search over dir0 returns only aaa.xml |
| SnakesSolutions.StandardBoardWellFormed | lld/python/solutions/snakes-and-ladders.py:38-60 | the configured board has 4 snakes that each go down and 7 ladders that each go up, every end on a cell 1..100 |
| SnakesSolutions.FirstFrom | lld/python/solutions/snakes-and-ladders.py:65-74 | finds the first snake or ladder in list order starting at the cell, and reports none exactly when no entry starts there |
| SnakesSolutions.DestinationMoves | lld/python/solutions/snakes-and-ladders.py:65-74 | the lookup moves a cell down exactly when a snake starts there (to that snake's end), up exactly when a ladder starts there (to its end), keeps every other cell, and keeps cells on the board |
| SnakesSolutions.GetNewPosition | lld/python/solutions/snakes-and-ladders.py:65-74 | the two loops (snakes checked first, then ladders) return the specified destination of the cell |
| SnakesSolutions.NextPosition | lld/python/solutions/snakes-and-ladders.py:108-112 | a player's new position is the roll added and then adjusted by the lookup, or unchanged when the sum passes 100 |
| SnakesSolutions.AdvanceStaysOnBoard | lld/python/solutions/snakes-and-ladders.py:108-112 | with a roll of 1..6 the position stays within 0..100, is unchanged on overshooting 100, and is otherwise a cell 1..100 |
| SnakesSolutions.Turn | lld/python/solutions/snakes-and-ladders.py:105-120 | a turn keeps the number of players and leaves the turn index pointing at a player |
| SnakesSolutions.TurnSpec | lld/python/solutions/snakes-and-ladders.py:105-120 | a turn moves only the current player, by the overshoot rule; the winner keeps the turn, and otherwise it passes to (index + 1) mod the number of players; positions stay on the board |
| SnakesSolutions.TurnEndsGame | lld/python/solutions/snakes-and-ladders.py:105-120 | a turn ends a running game exactly when the moving player reaches 100 |
| SnakesSolutions.RunKeepsShape | lld/python/solutions/snakes-and-ladders.py:104-120 | playing keeps the number of players and a valid turn index |
| SnakesSolutions.RunKeepsOnBoard | lld/python/solutions/snakes-and-ladders.py:104-120 | all positions stay within 0..100 whatever the rolls |
| SnakesSolutions.RunStops | lld/python/solutions/snakes-and-ladders.py:104-120 | play uses at most the given rolls and stops early only when someone is at 100; a game won during play has exactly one player at 100, the one whose turn it is |
| SnakesSolutions.RunRoundRobin | lld/python/solutions/snakes-and-ladders.py:104-120 | while nobody has won, after k turns it is the turn of the player k places after the first |
| SnakesSolutions.Player.constructor | lld/python/solutions/snakes-and-ladders.py:83-86 | a new player has the given name and starts at position 0 |
| SnakesSolutions.Game.constructor | lld/python/solutions/snakes-and-ladders.py:98-102 | a game on the standard board with one player per name, each at 0, and the first player's turn |
| SnakesSolutions.Game.IsGameOver | lld/python/solutions/snakes-and-ladders.py:123-127 | the game is over exactly when some player is at 100 |
| SnakesSolutions.Game.MoveCurrentPlayer | lld/python/solutions/snakes-and-ladders.py:106-112 | only the current player's position changes, to the overshoot-rule result of the roll |
| SnakesSolutions.Game.TakeTurn | lld/python/solutions/snakes-and-ladders.py:105-120 | the players' positions and turn index become the specified turn result, and the call reports a win exactly when the game is then over |
| SnakesSolutions.Game.Play | lld/python/solutions/snakes-and-ladders.py:104-120 | with rolls of 1..6 as input, an empty player list raises IndexError; otherwise positions and turn index become the specified run of turns over those rolls |
| SnakesPractice.StandardBoardWellFormed | lld/python/practice/snakes-and-ladders.py:55-76 | the configured board has 4 snakes that each go down and 7 ladders that each go up, every end on a cell 1..100 |
| SnakesPractice.FirstFrom | lld/python/practice/snakes-and-ladders.py:81-94 | finds the first snake or ladder in list order starting at the cell, and reports none exactly when no entry starts there |
| SnakesPractice.DestinationMoves | lld/python/practice/snakes-and-ladders.py:81-94 | the lookup moves a cell down exactly when a snake starts there (to that snake's end), up exactly when a ladder starts there (to its end), keeps every other cell, and keeps cells on the board |
| SnakesPractice.GetNewPosition | lld/python/practice/snakes-and-ladders.py:81-94 | the two loops (snakes checked first, then ladders) return the specified destination of the cell |
| SnakesPractice.NextPosition | lld/python/practice/snakes-and-ladders.py:143-149 | a player's new position is the roll added and then adjusted by the lookup, or unchanged when the sum passes 100 |
| SnakesPractice.AdvanceStaysOnBoard | lld/python/practice/snakes-and-ladders.py:143-149 | with a roll of 1..6 the position stays within 0..100, is unchanged on overshooting 100, and is otherwise a cell 1..100 |
| SnakesPractice.Turn | lld/python/practice/snakes-and-ladders.py:140-157 | a turn keeps the number of players and leaves the turn index pointing at a player |
| SnakesPractice.TurnSpec | lld/python/practice/snakes-and-ladders.py:140-157 | a turn moves only the current player, by the overshoot rule; the winner keeps the turn, and otherwise it passes to (index + 1) mod the number of players; positions stay on the board |
| SnakesPractice.TurnEndsGame | lld/python/practice/snakes-and-ladders.py:140-157 | a turn ends a running game exactly when the moving player reaches 100 |
| SnakesPractice.RunKeepsShape | lld/python/practice/snakes-and-ladders.py:136-157 | playing keeps the number of players and a valid turn index |
| SnakesPractice.RunKeepsOnBoard | lld/python/practice/snakes-and-ladders.py:136-157 | all positions stay within 0..100 whatever the rolls |
| SnakesPractice.RunStops | lld/python/practice/snakes-and-ladders.py:136-157 | play uses at most the given rolls and stops early only when someone is at 100; a game won during play has exactly one player at 100, the one whose turn it is |
| SnakesPractice.RunRoundRobin | lld/python/practice/snakes-and-ladders.py:136-157 | while nobody has won, after k turns it is the turn of the player k places after the first |
| SnakesPractice.Player.constructor | lld/python/practice/snakes-and-ladders.py:108-114 | a new player has the given name and starts at position 0 |
| SnakesPractice.Game.constructor | lld/python/practice/snakes-and-ladders.py:130-134 | a game on the standard board with one player per name, each at 0, and the first player's turn |
| SnakesPractice.Game.IsGameOver | lld/python/practice/snakes-and-ladders.py:159-166 | the game is over exactly when some player is at 100 |
| SnakesPractice.Game.MoveCurrentPlayer | lld/python/practice/snakes-and-ladders.py:141-147 | only the current player's position changes, to the overshoot-rule result of the roll |
| SnakesPractice.Game.TakeTurn | lld/python/practice/snakes-and-ladders.py:140-157 | the players' positions and turn index become the specified turn result, and the call reports a win exactly when the game is then over |
| SnakesPractice.Game.Play | lld/python/practice/snakes-and-ladders.py:136-157 | with rolls of 1..6 as input, an empty player list raises IndexError; otherwise positions and turn index become the specified run of turns over those rolls |
| MovieSolutions.SeatLifecycle | lld/python/solutions/movie-ticket-booking-system.py:131-141 | a seat can be reserved exactly when available and confirmed exactly when reserved; a refused call leaves the status unchanged; reserve then confirm books it; a seat not available cannot be reserved again |
| MovieSolutions.ReserveAllChanges | lld/python/solutions/movie-ticket-booking-system.py:169-178 | reserving seats never adds or removes a seat and changes only named seats, each from available to reserved |
| MovieSolutions.ReserveAllSucceeds | lld/python/solutions/movie-ticket-booking-system.py:169-178 | reserving succeeds exactly when the ids are distinct, known and available, and then exactly the named seats become reserved |
| MovieSolutions.ReserveAllStopsAt | lld/python/solutions/movie-ticket-booking-system.py:169-178 | no rollback: when the first j ids reserve cleanly and the next one is unknown or unavailable, the call fails and the first j seats stay reserved |
| MovieSolutions.AvailableIdsSpec | lld/python/solutions/movie-ticket-booking-system.py:165-167 | the available-seat listing holds exactly the show's seats that are available, each once |
| MovieSolutions.ConfirmAllSucceeds | lld/python/solutions/movie-ticket-booking-system.py:200-206 | confirming a booking's seats in order succeeds exactly when all of them are reserved, and then all are booked |
| MovieSolutions.ConfirmAllAt | lld/python/solutions/movie-ticket-booking-system.py:200-206 | a seat ends booked exactly when it and every seat before it were reserved (confirmation stops at the first failure without undoing earlier seats) |
| MovieSolutions.BookingLifecycle | lld/python/solutions/movie-ticket-booking-system.py:200-214 | a booking confirms exactly when pending with all seats reserved, then it is confirmed with every seat booked; a refusal keeps the status; cancelling is idempotent, leaves the booking cancelled and releases all seats unless it was already cancelled |
| MovieSolutions.BookingIdInjective | lld/python/solutions/movie-ticket-booking-system.py:247 | booking ids "BKG-" plus the six-digit zero-padded counter are equal exactly when the counters are |
| MovieSolutions.SeatIdInjective | lld/python/solutions/movie-ticket-booking-system.py:284 | seat ids "row-num" are equal exactly when row and number are |
| MovieSolutions.RowSeatsSpec | lld/python/solutions/movie-ticket-booking-system.py:283-285 | a row holds one seat per number 1..seats_per_row, in order |
| MovieSolutions.LayoutLength | lld/python/solutions/movie-ticket-booking-system.py:276-286 | the factory makes rows × seats_per_row seats |
| MovieSolutions.LayoutMember | lld/python/solutions/movie-ticket-booking-system.py:276-286 | the layout has a seat for every row 1..rows and number 1..seats_per_row and no other; rows 1-2 are premium at 200, later rows normal at 150 |
| MovieSolutions.LayoutIdsDistinct | lld/python/solutions/movie-ticket-booking-system.py:276-286 | the seat ids of the layout are pairwise distinct |
| MovieSolutions.DemoIds | lld/python/solutions/movie-ticket-booking-system.py:288-306 | with the `theater.add` line skipped, the demonstration books seats "1-5" and "1-6", premium at 200 each, under booking id "BKG-000001" |
| MovieSolutions.Seat.constructor | lld/python/solutions/movie-ticket-booking-system.py:123-129 | a new seat has the given id, row, type and price and is available |
| MovieSolutions.Seat.Reserve | lld/python/solutions/movie-ticket-booking-system.py:131-135 | an available seat becomes reserved; any other raises SeatNotAvailableError with the status unchanged |
| MovieSolutions.Seat.Confirm | lld/python/solutions/movie-ticket-booking-system.py:137-141 | a reserved seat becomes booked; any other raises InvalidBookingStateError with the status unchanged |
| MovieSolutions.Seat.Release | lld/python/solutions/movie-ticket-booking-system.py:143-145 | the seat becomes available from any status |
| MovieSolutions.AddAllIndexed | lld/python/solutions/movie-ticket-booking-system.py:160-163 | adding seats keeps every seat filed under its own id, keeps the earlier ids and files every added seat |
| MovieSolutions.Show.constructor | lld/python/solutions/movie-ticket-booking-system.py:152-158 | a new show has no seats |
| MovieSolutions.Show.AddSeats | lld/python/solutions/movie-ticket-booking-system.py:160-163 | the show's seat dictionary becomes the old one with each added seat filed under its id, a later seat replacing an earlier one with the same id |
| MovieSolutions.Show.GetAvailableSeats | lld/python/solutions/movie-ticket-booking-system.py:165-167 | returns exactly the show's available seats, each once, in the order their ids were first added |
| MovieSolutions.Show.ReserveSeats | lld/python/solutions/movie-ticket-booking-system.py:169-178 | the seat statuses become the specified in-order reservation result (no rollback); an unknown id raises ValueError and an unavailable seat SeatNotAvailableError; on success returns the named seats in order |
| MovieSolutions.Booking.constructor | lld/python/solutions/movie-ticket-booking-system.py:191-198 | a new booking has the given id and seats and is pending |
| MovieSolutions.Booking.Confirm | lld/python/solutions/movie-ticket-booking-system.py:200-206 | the booking's status and seat statuses become the specified confirmation result: a booking that is not pending raises InvalidBookingStateError |
| MovieSolutions.Booking.Cancel | lld/python/solutions/movie-ticket-booking-system.py:208-214 | the booking becomes the specified cancellation result: cancelled with every seat released, or unchanged when already cancelled |
| MovieSolutions.Booking.ApplyPayment | lld/python/solutions/movie-ticket-booking-system.py:257-263 | the booking becomes the specified payment result: approved confirms, declined leaves it, and any exception cancels it and is raised again |
| MovieSolutions.PayAndConfirmSpec | lld/python/solutions/movie-ticket-booking-system.py:252-263 | confirmation succeeds exactly on a declined payment or an approved one for a pending booking with all seats reserved (then every seat is booked); every failure leaves the booking cancelled with its seats released |
| MovieSolutions.BookingSystem.constructor | lld/python/solutions/movie-ticket-booking-system.py:229-235 | the system starts with no bookings and its booking counter at 1 |
| MovieSolutions.BookingSystem.CreateBooking | lld/python/solutions/movie-ticket-booking-system.py:241-250 | the show's seats are reserved as specified and a failure is raised again with nothing filed; on success a pending booking for the named seats is filed under the next id "BKG-NNNNNN", never replacing an earlier booking, and the counter advances |
| MovieSolutions.BookingSystem.ConfirmBooking | lld/python/solutions/movie-ticket-booking-system.py:252-263 | an unknown id raises ValueError; otherwise the sum of the seat prices is charged and the booking becomes the specified payment result |
| MovieSolutions.CreateSeats | lld/python/solutions/movie-ticket-booking-system.py:276-286 | the factory returns fresh, available, distinct seats whose ids, rows, types and prices are the specified layout |
| MovieSolutions.CreateRow | lld/python/solutions/movie-ticket-booking-system.py:283-285 | one row's seats are fresh, available and distinct, with the specified ids, type and price |
| MoviePractice.SeatLifecycle | lld/python/practice/movie-ticket-booking-system.py:68-78 | a seat can be reserved exactly when available and confirmed exactly when reserved; a refused call leaves the status unchanged; reserve then confirm books it; a seat not available cannot be reserved again |
| MoviePractice.ReserveAllChanges | lld/python/practice/movie-ticket-booking-system.py:106-115 | reserving seats never adds or removes a seat and changes only named seats, each from available to reserved |
| MoviePractice.ReserveAllSucceeds | lld/python/practice/movie-ticket-booking-system.py:106-115 | reserving succeeds exactly when the ids are distinct, known and available, and then exactly the named seats become reserved |
| MoviePractice.ReserveAllStopsAt | lld/python/practice/movie-ticket-booking-system.py:106-115 | no rollback: when the first j ids reserve cleanly and the next one is unknown or unavailable, the call fails and the first j seats stay reserved |
| MoviePractice.AvailableIdsSpec | lld/python/practice/movie-ticket-booking-system.py:102-104 | the available-seat listing holds exactly the show's seats that are available, each once |
| MoviePractice.ConfirmAllSucceeds | lld/python/practice/movie-ticket-booking-system.py:137-143 | confirming a booking's seats in order succeeds exactly when all of them are reserved, and then all are booked |
| MoviePractice.ConfirmAllAt | lld/python/practice/movie-ticket-booking-system.py:137-143 | a seat ends booked exactly when it and every seat before it were reserved (confirmation stops at the first failure without undoing earlier seats) |
| MoviePractice.BookingLifecycle | lld/python/practice/movie-ticket-booking-system.py:137-151 | a booking confirms exactly when pending with all seats reserved, then it is confirmed with every seat booked; a refusal keeps the status; cancelling is idempotent, leaves the booking cancelled and releases all seats unless it was already cancelled |
| MoviePractice.BookingIdInjective | lld/python/practice/movie-ticket-booking-system.py:184 | booking ids "BKG-" plus the six-digit zero-padded counter are equal exactly when the counters are |
| MoviePractice.SeatIdInjective | lld/python/practice/movie-ticket-booking-system.py:222 | seat ids "row-num" are equal exactly when row and number are |
| MoviePractice.RowSeatsSpec | lld/python/practice/movie-ticket-booking-system.py:221-223 | a row holds one seat per number 1..seats_per_row, in order |
| MoviePractice.LayoutLength | lld/python/practice/movie-ticket-booking-system.py:214-224 | the factory makes rows × seats_per_row seats |
| MoviePractice.LayoutMember | lld/python/practice/movie-ticket-booking-system.py:214-224 | the layout has a seat for every row 1..rows and number 1..seats_per_row and no other; rows 1-2 are premium at 200, later rows normal at 150 |
| MoviePractice.LayoutIdsDistinct | lld/python/practice/movie-ticket-booking-system.py:214-224 | the seat ids of the layout are pairwise distinct |
| MoviePractice.DemoIds | lld/python/practice/movie-ticket-booking-system.py:227-249 | the demonstration books seats "1-5" and "1-6", premium at 200 each, under booking id "BKG-000001" |
| MoviePractice.Seat.constructor | lld/python/practice/movie-ticket-booking-system.py:60-66 | a new seat has the given id, row, type and price and is available |
| MoviePractice.Seat.Reserve | lld/python/practice/movie-ticket-booking-system.py:68-72 | an available seat becomes reserved; any other raises SeatNotAvailableError with the status unchanged |
| MoviePractice.Seat.Confirm | lld/python/practice/movie-ticket-booking-system.py:74-78 | a reserved seat becomes booked; any other raises InvalidBookingStateError with the status unchanged |
| MoviePractice.Seat.Release | lld/python/practice/movie-ticket-booking-system.py:80-82 | the seat becomes available from any status |
| MoviePractice.AddAllIndexed | lld/python/practice/movie-ticket-booking-system.py:97-100 | adding seats keeps every seat filed under its own id, keeps the earlier ids and files every added seat |
| MoviePractice.Show.constructor | lld/python/practice/movie-ticket-booking-system.py:89-95 | a new show has no seats |
| MoviePractice.Show.AddSeats | lld/python/practice/movie-ticket-booking-system.py:97-100 | the show's seat dictionary becomes the old one with each added seat filed under its id, a later seat replacing an earlier one with the same id |
| MoviePractice.Show.GetAvailableSeats | lld/python/practice/movie-ticket-booking-system.py:102-104 | returns exactly the show's available seats, each once, in the order their ids were first added |
| MoviePractice.Show.ReserveSeats | lld/python/practice/movie-ticket-booking-system.py:106-115 | the seat statuses become the specified in-order reservation result (no rollback); an unknown id raises ValueError and an unavailable seat SeatNotAvailableError; on success returns the named seats in order |
| MoviePractice.Booking.constructor | lld/python/practice/movie-ticket-booking-system.py:128-135 | a new booking has the given id and seats and is pending |
| MoviePractice.Booking.Confirm | lld/python/practice/movie-ticket-booking-system.py:137-143 | the booking's status and seat statuses become the specified confirmation result: a booking that is not pending raises InvalidBookingStateError |
| MoviePractice.Booking.Cancel | lld/python/practice/movie-ticket-booking-system.py:145-151 | the booking becomes the specified cancellation result: cancelled with every seat released, or unchanged when already cancelled |
| MoviePractice.Booking.ApplyPayment | lld/python/practice/movie-ticket-booking-system.py:194-200 | the booking becomes the specified payment result: approved confirms, declined leaves it, and any exception cancels it and is raised again |
| MoviePractice.PayAndConfirmSpec | lld/python/practice/movie-ticket-booking-system.py:189-200 | confirmation succeeds exactly on a declined payment or an approved one for a pending booking with all seats reserved (then every seat is booked); every failure leaves the booking cancelled with its seats released |
| MoviePractice.BookingSystem.constructor | lld/python/practice/movie-ticket-booking-system.py:166-172 | the system starts with no bookings and its booking counter at 1 |
| MoviePractice.BookingSystem.CreateBooking | lld/python/practice/movie-ticket-booking-system.py:178-187 | the show's seats are reserved as specified and a failure is raised again with nothing filed; on success a pending booking for the named seats is filed under the next id "BKG-NNNNNN", never replacing an earlier booking, and the counter advances |
| MoviePractice.BookingSystem.ConfirmBooking | lld/python/practice/movie-ticket-booking-system.py:189-200 | an unknown id raises ValueError; otherwise the sum of the seat prices is charged and the booking becomes the specified payment result |
| MoviePractice.CreateSeats | lld/python/practice/movie-ticket-booking-system.py:214-224 | the factory returns fresh, available, distinct seats whose ids, rows, types and prices are the specified layout |
| MoviePractice.CreateRow | lld/python/practice/movie-ticket-booking-system.py:221-223 | one row's seats are fresh, available and distinct, with the specified ids, type and price |
| HotelPractice.RoomLifecycle | lld/python/practice/hotel-management-system.py:147-175 | book succeeds exactly from available, check-in exactly from booked, check-out exactly from occupied; a refused transition leaves the status unchanged; an available room goes through book, check-in and check-out back to available |
| HotelPractice.CancelSpec | lld/python/practice/hotel-management-system.py:202-211 | cancelling succeeds exactly for a confirmed reservation whose room is occupied, which frees the room; a confirmed reservation is marked cancelled even when the room's check-out then raises; a reservation that is not confirmed raises with nothing changed |
| HotelPractice.CancelBeforeCheckIn | lld/python/practice/hotel-management-system.py:206-209 | cancelling a confirmed reservation before check-in leaves it cancelled and its room stuck as booked, and a second cancel raises |
| HotelPractice.Room.constructor | lld/python/practice/hotel-management-system.py:140-145 | a new room has the given id, type and price and is available |
| HotelPractice.Room.Book | lld/python/practice/hotel-management-system.py:147-155 | the room becomes the specified booking result: available to booked, otherwise ValueError with no change |
| HotelPractice.Room.CheckIn | lld/python/practice/hotel-management-system.py:157-165 | the room becomes the specified check-in result: booked to occupied, otherwise ValueError with no change |
| HotelPractice.Room.CheckOut | lld/python/practice/hotel-management-system.py:167-175 | the room becomes the specified check-out result: occupied to available, otherwise ValueError with no change |
| HotelPractice.Reservation.constructor | lld/python/practice/hotel-management-system.py:186-200 | a new reservation holds its guest, room and dates and is confirmed |
| HotelPractice.Reservation.Cancel | lld/python/practice/hotel-management-system.py:202-211 | the reservation's status and its room's status become the specified cancellation result |
| HotelPractice.HotelSystem.constructor | lld/python/practice/hotel-management-system.py:225-232 | the system starts with no guests, rooms or reservations |
| HotelPractice.HotelSystem.AddGuest | lld/python/practice/hotel-management-system.py:234-235 | the guest is filed under its id, replacing any guest with that id |
| HotelPractice.HotelSystem.GetGuest | lld/python/practice/hotel-management-system.py:237-238 | returns the guest filed under the id, or None when there is none |
| HotelPractice.HotelSystem.AddRoom | lld/python/practice/hotel-management-system.py:240-241 | the room is filed under its id, replacing any room with that id |
| HotelPractice.HotelSystem.GetRoom | lld/python/practice/hotel-management-system.py:243-244 | returns the room filed under the id, or None when there is none |
| HotelPractice.HotelSystem.BookRoom | lld/python/practice/hotel-management-system.py:246-269 | a room that is not available gives None and changes nothing; otherwise the room becomes booked and a new confirmed reservation for this guest and room is filed under the fresh id |
| HotelPractice.HotelSystem.CancelReservation | lld/python/practice/hotel-management-system.py:271-279 | an unknown id does nothing; a known reservation is cancelled as specified and removed only when the cancellation did not raise, after which no filed reservation carries that id |
| HotelPractice.HotelSystem.CheckIn | lld/python/practice/hotel-management-system.py:281-290 | a filed, confirmed reservation checks its room in as specified; anything else raises ValueError |
| HotelPractice.HotelSystem.CheckOut | lld/python/practice/hotel-management-system.py:292-309 | anything but a filed, confirmed reservation raises; a failed payment raises "Payment failed" with nothing removed; a paid one checks the room out as specified and removes the reservation when that succeeds, after which no filed reservation carries that id |
| HotelPractice.DemoHotel | lld/python/practice/hotel-management-system.py:328-340 | the demo's setup files two guests and two available rooms and no reservations |
| HotelPractice.Demo | lld/python/practice/hotel-management-system.py:343-364 | the demo's check-in, check-out and cancellation all succeed, the room ends available, and no reservation is left on file |
| Vending.CoinValue | lld/python/vending-machine.py:26-30 | a coin is worth between 1 and 25 cents (penny, nickel, dime, quarter) |
| Vending.NoteValue | lld/python/vending-machine.py:32-36 | a note is worth between 100 and 2000 cents (one to twenty dollars) |
| Vending.Product.constructor | lld/python/vending-machine.py:39-42 | a product has the given name and price |
| Vending.InventoryLaws | lld/python/vending-machine.py:49-63 | a quantity set by add or update reads back as set, a removed product reads 0 (the default), and other products are unaffected |
| Vending.ConsistentKept | lld/python/vending-machine.py:86-203 | every operation keeps a selected product whenever the machine is past idle and keeps the payment non-negative; on such a machine no operation raises while a state is set |
| Vending.StuckWithoutState | lld/python/vending-machine.py:226-243 | once the current state is None every public operation raises and changes nothing |
| Vending.SelectSpec | lld/python/vending-machine.py:90-96 | only the idle state reacts to a selection, and only for a product in stock, which becomes selected with the machine ready; payment and stock are never touched (see also lines 115-116, 151-152, 184-185) |
| Vending.InsertSpec | lld/python/vending-machine.py:118-134 | in the ready state the payment grows by exactly the value inserted and the machine moves to dispensing exactly when the total covers the price, otherwise it stays ready |
| Vending.DispenseSpec | lld/python/vending-machine.py:160-172 | dispensing takes exactly one unit of the selected product and touches no other; out of stock the inventory is untouched, the payment is returned and the machine ends without a state |
| Vending.ReturnSpec | lld/python/vending-machine.py:139-145 | returning change after a sale zeroes the payment and makes the machine idle, keeping the selected product; returning from the ready state zeroes the payment and leaves the machine without a state (see also lines 196-203, 226-227) |
| Vending.DemoPurchase | lld/python/vending-machine.py:250-268 | test 1: six quarters pay for a coke at 150 cents, which is dispensed, leaving the machine idle with 2 cokes |
| Vending.DemoTopUp | lld/python/vending-machine.py:270-278 | test 2: pepsi at 175 cents is not dispensed with 125 cents in, and is dispensed after two more quarters |
| Vending.DemoUncollectedChange | lld/python/vending-machine.py:280-286 | test 3: water paid with a five is dispensed; while the change is not collected a second selection, payment and dispense change nothing |
| Vending.Inventory.constructor | lld/python/vending-machine.py:45-47 | a new inventory is empty |
| Vending.Inventory.AddProduct | lld/python/vending-machine.py:49-50 | the product's quantity is set, overwriting any earlier one |
| Vending.Inventory.RemoveProduct | lld/python/vending-machine.py:52-54 | the product is removed if present; otherwise nothing changes |
| Vending.Inventory.UpdateQuantity | lld/python/vending-machine.py:56-57 | the product's quantity is set, overwriting any earlier one |
| Vending.Inventory.GetQuantity | lld/python/vending-machine.py:59-60 | the stored quantity, or 0 for a product never added |
| Vending.Inventory.IsAvailable | lld/python/vending-machine.py:62-63 | a product is available exactly when its quantity is positive |
| Vending.VendingMachine.constructor | lld/python/vending-machine.py:209-221 | a new machine is idle with no selected product, zero payment and an empty inventory |
| Vending.VendingMachine.SetState | lld/python/vending-machine.py:223-224 | the current state becomes the given one |
| Vending.VendingMachine.ResetSelectedProduct | lld/python/vending-machine.py:226-227 | as written it clears the current state, not the selected product |
| Vending.VendingMachine.SelectProduct | lld/python/vending-machine.py:230-231 | the machine becomes the specified selection result |
| Vending.VendingMachine.InsertCoin | lld/python/vending-machine.py:118-121 | inserting a coin is the money step for the coin's value, so in the ready state the payment grows by that value and dispensing starts once the price is covered (called through lines 233-234) |
| Vending.VendingMachine.InsertNote | lld/python/vending-machine.py:123-126 | inserting a note is the money step for the note's value, so in the ready state the payment grows by that value and dispensing starts once the price is covered (called through lines 236-237) |
| Vending.VendingMachine.InsertMoney | lld/python/vending-machine.py:98-102 | each state's handling of inserted money: only the ready state adds it and checks the payment (see also lines 118-126, 154-158, 187-191) |
| Vending.VendingMachine.CheckPaymentStatus | lld/python/vending-machine.py:128-134 | the machine moves to dispensing exactly when the payment covers the selected product's price |
| Vending.VendingMachine.DispenseProduct | lld/python/vending-machine.py:160-172 | the machine and inventory become the dispensing step's result: in the dispense state one unit of the selected product is taken and change is due, and out of stock the money goes back and the machine is left without a state (called through lines 239-240) |
| Vending.VendingMachine.ReturnChangeNow | lld/python/vending-machine.py:196-203 | the machine becomes the change step's result: after a sale the payment is zeroed and the machine is idle, from the ready state it is left without a state, and with no state it raises (see also lines 139-145 and 242-243) |
| Vending.VendingMachine.ReadyReturnChange | lld/python/vending-machine.py:139-145 | the ready state's return: payment returned, then the state set to idle and cleared to None |
| PizzaSolutions.Pizza.constructor | lld/python/solutions/pizza-shop.py:49-54 | a new pizza has its name and base price, is medium with a thick base, and has no toppings attribute |
| PizzaSolutions.OrderLifecycle | lld/python/solutions/pizza-shop.py:65-132 | orders only move forward; delivered and cancelled orders never change; a successful step from any other state changes it; cancelling works exactly before ready-for-delivery; only an order without a payment strategy is cancelled by processing; processing fails exactly when preparing or paying reads the toppings of a pizza without them |
| PizzaSolutions.HappyPath | lld/python/solutions/pizza-shop.py:320-333 | with a strategy set and topped pizzas, four process calls go payment pending, in preparation, ready for delivery, delivered, and a cancel afterwards changes nothing |
| PizzaSolutions.RunsSpec | lld/python/solutions/pizza-shop.py:206-212 | the kitchen runs commands in order up to the first one that fails on a pizza without toppings |
| PizzaSolutions.PlanAppend | lld/python/solutions/pizza-shop.py:93-99 | preparing an order queues, per pizza in order, its prepare command and then its bake command |
| PizzaSolutions.PlanRuns | lld/python/solutions/pizza-shop.py:88-102 | the preparation plan has two commands per pizza and runs to the end exactly when every pizza has toppings |
| PizzaSolutions.Kitchen.constructor | lld/python/solutions/pizza-shop.py:197-200 | a new kitchen has no queued and no completed commands |
| PizzaSolutions.Kitchen.AddCommand | lld/python/solutions/pizza-shop.py:202-204 | the command is queued at the back |
| PizzaSolutions.Kitchen.ProcessCommands | lld/python/solutions/pizza-shop.py:206-212 | commands run first in, first out and are recorded as completed in the same order; all of them run and the queue empties unless a command raises, in which case the commands before it are completed and the failing one is dropped from the queue |
| PizzaSolutions.Kitchen.UndoLast | lld/python/solutions/pizza-shop.py:214-218 | pops and returns the most recently completed command, or does nothing when none is completed |
| PizzaSolutions.Order.constructor | lld/python/solutions/pizza-shop.py:221-226 | a new order is new, has no pizzas and no payment strategy, and the customer is its only observer |
| PizzaSolutions.Order.Attach | lld/python/solutions/pizza-shop.py:228-229 | the observer is appended |
| PizzaSolutions.Order.AddPizza | lld/python/solutions/pizza-shop.py:251-252 | the pizza is appended |
| PizzaSolutions.Order.SetPaymentStrategy | lld/python/solutions/pizza-shop.py:254-255 | the payment strategy is set |
| PizzaSolutions.Order.Notify | lld/python/solutions/pizza-shop.py:231-233 | every observer receives one notice with the current state, in order |
| PizzaSolutions.Order.ProcessPayment | lld/python/solutions/pizza-shop.py:246-249 | without a strategy paying is refused; with one it is approved, unless computing the cost reads the toppings of a pizza without them |
| PizzaSolutions.Order.Cook | lld/python/solutions/pizza-shop.py:88-102 | preparing the order's pizzas succeeds exactly when every pizza has toppings |
| PizzaSolutions.Order.ProcessOrder | lld/python/solutions/pizza-shop.py:235-237 | the state and outcome become the specified processing step, and observers are notified exactly when the step did not raise |
| PizzaSolutions.Order.CancelOrder | lld/python/solutions/pizza-shop.py:239-241 | the state becomes the specified cancellation result and every observer is notified |
| PizzaSolutions.CreatePizza | lld/python/solutions/pizza-shop.py:257-268 | MARGHERITA and PEPPERONI give a fresh medium thick pizza with their name, price and toppings (cheese and olives, cheese and pepperoni); any other name raises ValueError |
| PizzaSolutions.PizzaBuilder.constructor | lld/python/solutions/pizza-shop.py:274-276 | the builder holds a fresh default pizza with the given name and price and no toppings |
| PizzaSolutions.PizzaBuilder.SetSize | lld/python/solutions/pizza-shop.py:278-280 | the size is overwritten |
| PizzaSolutions.PizzaBuilder.SetBase | lld/python/solutions/pizza-shop.py:282-284 | the base is overwritten |
| PizzaSolutions.PizzaBuilder.AddTopping | lld/python/solutions/pizza-shop.py:286-288 | a topping is appended to an existing toppings list; on a pizza without one it raises with nothing changed |
| PizzaSolutions.PizzaBuilder.Build | lld/python/solutions/pizza-shop.py:290-291 | returns the pizza being built |
| PizzaSolutions.CustomPizza | lld/python/solutions/pizza-shop.py:294-299 | the builder usage raises at its first add_topping, because a built pizza has no toppings list |
| PizzaPractice.Pizza.constructor | lld/python/practice/pizza-shop.py:58-64 | a new pizza has its name and base price, is medium with a thick base and an empty toppings list |
| PizzaPractice.OrderLifecycle | lld/python/practice/pizza-shop.py:77-128 | orders only move forward; processing leaves exactly delivered and cancelled orders unchanged, and cancelling never changes them either; cancelling works exactly before ready-for-delivery; processing cancels exactly an order in payment pending without a strategy |
| PizzaPractice.RunEnds | lld/python/practice/pizza-shop.py:77-114 | four or more process calls on a new order end delivered when a strategy is set and cancelled otherwise (see also lines 211-214) |
| PizzaPractice.RunStays | lld/python/practice/pizza-shop.py:116-128 | further process calls never change a delivered or cancelled order |
| PizzaPractice.Order.constructor | lld/python/practice/pizza-shop.py:186-191 | a new order is new, has no pizzas and no payment strategy, and the customer is its only observer |
| PizzaPractice.Order.Attach | lld/python/practice/pizza-shop.py:193-194 | the observer is appended |
| PizzaPractice.Order.AddPizza | lld/python/practice/pizza-shop.py:216-217 | the pizza is appended |
| PizzaPractice.Order.SetPaymentStrategy | lld/python/practice/pizza-shop.py:219-220 | the payment strategy is set |
| PizzaPractice.Order.Notify | lld/python/practice/pizza-shop.py:196-198 | every observer receives one notice with the current state, in order |
| PizzaPractice.Order.ProcessPayment | lld/python/practice/pizza-shop.py:211-214 | paying succeeds exactly when a payment strategy is set (every strategy approves) |
| PizzaPractice.Order.ProcessOrder | lld/python/practice/pizza-shop.py:200-202 | the state becomes the specified processing step and every observer is notified |
| PizzaPractice.Order.CancelOrder | lld/python/practice/pizza-shop.py:204-206 | the state becomes the specified cancellation result and every observer is notified |
| PizzaPractice.Demo | lld/python/practice/pizza-shop.py:226-257 | the usage example ends delivered, and the customer is notified of all five steps: payment pending, in preparation, ready for delivery, delivered, and delivered again after the refused cancel |
| PizzaPractice.CreatePizza | lld/python/practice/pizza-shop.py:260-271 | MARGHERITA and PEPPERONI give a fresh medium thick pizza with their name, price and toppings; any other name raises ValueError |
| PizzaPractice.PizzaBuilder.constructor | lld/python/practice/pizza-shop.py:277-279 | the builder holds a fresh default pizza with the given name and price and no toppings |
| PizzaPractice.PizzaBuilder.SetSize | lld/python/practice/pizza-shop.py:281-283 | the size is overwritten |
| PizzaPractice.PizzaBuilder.SetBase | lld/python/practice/pizza-shop.py:285-287 | the base is overwritten |
| PizzaPractice.PizzaBuilder.AddTopping | lld/python/practice/pizza-shop.py:289-291 | the topping is appended to the toppings list |
| PizzaPractice.PizzaBuilder.Build | lld/python/practice/pizza-shop.py:293-294 | returns the pizza being built |
| PizzaPractice.PizzaShop.OrderPredefined | lld/python/practice/pizza-shop.py:309-310 | delegates to the factory: the two known kinds with their toppings, ValueError for any other name |
| PizzaPractice.PizzaShop.OrderCustom | lld/python/practice/pizza-shop.py:312-313 | returns a fresh builder over a default pizza with the given name and price |
| PizzaPractice.VeggieSpecial | lld/python/practice/pizza-shop.py:322-326 | the custom usage builds a medium thick "Veggie Special" at 1100 cents with mushrooms then olives |
| ChessPractice.NoSelfCapture | lld/python/practice/chess.py:129-134 | a valid move never lands on a piece of the mover's own colour, so a piece never "moves" onto its own square |
| ChessPractice.QueenIsRookOrBishop | lld/python/practice/chess.py:55-72 | the queen can move exactly where a rook or a bishop standing on its square could |
| ChessPractice.Symmetric | lld/python/practice/chess.py:55-76 | for every kind but the pawn, a move from a to b is allowed exactly when the move back from b to a is |
| ChessPractice.PawnForward | lld/python/practice/chess.py:42-53 | a pawn moves one row forward in its own column, two rows from its starting row (1 for white, 6 for black), or one row forward and one column sideways onto an occupied square, and nothing else |
| ChessPractice.InitialSquares | lld/python/practice/chess.py:100-121 | the starting board is an 8 by 8 grid |
| ChessPractice.InitialLayout | lld/python/practice/chess.py:100-121 | rows 0 and 1 are white, rows 6 and 7 black, the back ranks read rook, knight, bishop, queen, king, bishop, knight, rook, rows 1 and 6 are pawns, rows 2 to 5 are empty, and every piece records its own square |
| ChessPractice.SetSquare | lld/python/practice/chess.py:126-127 | exactly the given square is overwritten and the grid keeps its shape |
| ChessPractice.MoveEffect | lld/python/practice/chess.py:88-97 | after a valid move the source square is empty, the destination holds the piece with its new row and column, every other square is unchanged and every piece still records its own square |
| ChessPractice.Board.constructor | lld/python/practice/chess.py:100-121 | a new board holds the starting layout |
| ChessPractice.Board.SetPiece | lld/python/practice/chess.py:126-127 | the board becomes the grid with that one square overwritten |
| ChessPractice.MakeMove | lld/python/practice/chess.py:88-97 | a valid move empties the source and places the moved piece at the destination; an invalid one raises "Invalid move!" and leaves the board unchanged (see also lines 129-134) |
| ChessPractice.PyIndex | lld/python/practice/chess.py:165-170 | an index is accepted exactly when it lies in -n..n-1, and a negative one counts from the end, as Python list indexing does |
| ChessPractice.RoundSpec | lld/python/practice/chess.py:150-174 | a round passes the turn exactly when it raises nothing, a round that raises leaves the board as it was, and a successful round empties a square holding one of the mover's pieces and places that piece, with its new square, at the destination |
| ChessPractice.NeverOver | lld/python/practice/chess.py:136-142 | neither colour is ever checkmated or stalemated, so the game loop never ends on its own (see also lines 176-180) |
| ChessPractice.Game.constructor | lld/python/practice/chess.py:144-148 | a new game has a fresh starting board and white to move |
| ChessPractice.Game.PlayRound | lld/python/practice/chess.py:150-174 | one pass of the loop body: the board, the player to move and the raised error are those of the round specification |
| ChessRoot.IsClearPath | lld/python/chess.py:161-170 | the scan reports a clear path exactly when every square strictly between start and end along the column-counted diagonal is empty |
| ChessRoot.PieceAllows | lld/python/chess.py:130-170 | dispatches to the pawn, knight or bishop rule and answers exactly what that rule allows |
| ChessRoot.PawnRules | lld/python/chess.py:130-147 | a pawn moves one row forward onto an empty square, two rows forward from row 1 or 6 when both the end and the square passed are empty, or one row forward and one column aside onto an occupied square, and nothing else |
| ChessRoot.KnightRules | lld/python/chess.py:149-153 | the knight's moves are exactly the eight L-shaped jumps, and each is reversible |
| ChessRoot.BishopQuirk | lld/python/chess.py:155-159 | because the shape test compares abs(a != b) rather than two absolute values, a bishop only ever moves towards higher columns and no bishop move can be undone |
| ChessRoot.BishopBlocked | lld/python/chess.py:159-170 | a piece on any square the bishop passes over forbids the move |
| ChessRoot.MovedGrid | lld/python/chess.py:59-64 | moving keeps the grid 8 by 8 |
| ChessRoot.MoveEffect | lld/python/chess.py:59-64 | after a move the start is empty, the end holds the start's former piece (when they differ), and every other square is unchanged |
| ChessRoot.Board.constructor | lld/python/chess.py:42-45 | a board holds the given grid |
| ChessRoot.Board.MovePiece | lld/python/chess.py:59-64 | the grid becomes the moved grid |
| ChessRoot.RoundSpec | lld/python/chess.py:71-92 | the turn passes exactly when the move is valid, an invalid move changes nothing, and a valid move takes one of the mover's pieces from the start to a different end square |
| ChessRoot.ChessGame.constructor | lld/python/chess.py:66-69 | a game plays on the given board with white to move |
| ChessRoot.ChessGame.IsValidMove | lld/python/chess.py:83-92 | a move is valid exactly when the start holds one of the mover's pieces, the end holds none of them, and the piece's rule allows it |
| ChessRoot.ChessGame.PlayRound | lld/python/chess.py:71-81 | one pass of the loop: the board and the player to move are those of the round specification, and the answer is whether the move was valid |
| ParkingSolutions.Vehicle.constructor | lld/python/solutions/parking-garage.py:75-80 | a vehicle keeps its licence plate and type |
| ParkingSolutions.FirstSpec | lld/python/solutions/parking-garage.py:165-181 | the first-match search returns the lowest index of a true entry, and nothing exactly when no entry is true |
| ParkingSolutions.FirstOnly | lld/python/solutions/parking-garage.py:175-181 | when exactly one entry is true the search finds that one |
| ParkingSolutions.ParkOnLevelSpec | lld/python/solutions/parking-garage.py:165-173 | parking on a level succeeds exactly when a free spot of the vehicle's type exists; it then fills the first such spot and nothing else, and otherwise changes nothing |
| ParkingSolutions.LevelRoundTrip | lld/python/solutions/parking-garage.py:165-181 | parking a vehicle not yet on the level and then unparking it restores the level |
| ParkingSolutions.ParkingSpot.constructor | lld/python/solutions/parking-garage.py:106-109 | a new spot has its number and type and is empty |
| ParkingSolutions.ParkingSpot.Park | lld/python/solutions/parking-garage.py:114-120 | a free spot of the vehicle's type takes the vehicle; otherwise ValueError is raised and the spot is unchanged |
| ParkingSolutions.ParkingSpot.Unpark | lld/python/solutions/parking-garage.py:122-128 | an occupied spot is emptied; an empty spot raises ValueError and stays empty |
| ParkingSolutions.Layout | lld/python/solutions/parking-garage.py:152-163 | the level layout has one entry per motorcycle, car and truck spot |
| ParkingSolutions.CreateBlock | lld/python/solutions/parking-garage.py:152-163 | a block is the given number of fresh, distinct, empty spots of one type, numbered consecutively |
| ParkingSolutions.Level.constructor | lld/python/solutions/parking-garage.py:139-163 | a new level has motorcycle spots, then car spots, then truck spots, all fresh, distinct and empty and numbered from 1 |
| ParkingSolutions.Level.Park | lld/python/solutions/parking-garage.py:165-173 | the level's occupants become those of the level parking specification, and the answer is whether a free spot of the vehicle's type existed |
| ParkingSolutions.Level.ParkAt | lld/python/solutions/parking-garage.py:168-170 | parking on a suitable spot fills exactly that spot |
| ParkingSolutions.Level.Unpark | lld/python/solutions/parking-garage.py:175-181 | the first spot holding the vehicle is freed, and the answer is whether there was one |
| ParkingSolutions.Level.UnparkAt | lld/python/solutions/parking-garage.py:177-178 | unparking a spot frees exactly that spot |
| ParkingSolutions.ParkingLot.constructor | lld/python/solutions/parking-garage.py:215-218 | a new lot has no levels |
| ParkingSolutions.ParkingLot.AddLevel | lld/python/solutions/parking-garage.py:226-228 | the level is appended |
| ParkingSolutions.ParkingLot.Park | lld/python/solutions/parking-garage.py:230-236 | the lot's occupancy becomes that of the lot parking specification, and the answer is whether any level had a free spot of the vehicle's type |
| ParkingSolutions.ParkingLot.ParkOnLevelAt | lld/python/solutions/parking-garage.py:231-232 | parking on one level changes that level as the level specification says and leaves every other level as it was |
| ParkingSolutions.ParkingLot.Unpark | lld/python/solutions/parking-garage.py:238-251 | the first level holding the vehicle frees its first spot holding it, and the answer is whether any level held it |
| ParkingSolutions.ParkingLot.UnparkFromLevelAt | lld/python/solutions/parking-garage.py:239-241 | unparking on one level changes that level as the level specification says and leaves every other level as it was |
| ParkingSolutions.ParkInLotSpec | lld/python/solutions/parking-garage.py:230-236 | the vehicle goes to the first level with a free spot of its type, which changes as level parking says while every other level stays as it was; with no such level nothing changes |
| ParkingSolutions.ParkedIsHeld | lld/python/solutions/parking-garage.py:165-181 | after a successful park the level holds the vehicle, so a later unpark finds it |
| ParkingSolutions.LotRoundTrip | lld/python/solutions/parking-garage.py:230-251 | parking a vehicle not yet in the lot and then unparking it restores every level |

## Left out

- Threads, locks, condition variables, daemon workers and `time.sleep` in the elevator files are not modelled; the calls run one at a time.
- ElevatorPractice.Elevator.GetNextRequest: the blocking `condition.wait` becomes the precondition "the queue is non-empty or the car is stopped"; a wait that a later call would end is not modelled (the same holds in ElevatorSolutions and ElevatorRoot).
- ElevatorPractice.ElevatorController.FindOptimalElevator: the controller lock, which guards only `elevators[0]`, is not modelled (the same holds in the other two elevator copies).
- The per-object locks of the hotel and movie systems, singleton construction (`__new__`, `get_instance`, double-checked locking) and `GameManager` starting games on threads are not modelled.
- The splitwise exercise is not part of this model: all of its logic is floating-point splitting and balances compared with a tolerance.
- Floating-point money is not modelled: pizza `calculate_cost` and `total_cost`, hotel `price * days`, parking invoices, hourly rates and `ceil(hours)`, and Python float rounding. Vending-machine money is integer cents, and movie seat prices are integers.
- Payment strategies and processors only print and approve. The hotel check-out takes the payment result as a boolean `paid`, the movie booking takes a `PaymentReply` (approved, declined or raising), and every pizza payment strategy approves.
- `uuid` and `datetime` values are not generated. A hotel reservation id is a parameter, dates are integers, and parking entry and exit times are not kept.
- `print`, observer printing, `input()` game loops and `main` blocks are not modelled. Observers receive notices in a log. Reading positions in the chess games becomes the round's parameters, and a `main` block appears only as a lemma about its fixed inputs.
- SnakesSolutions.Game.Play: dice rolls are a given sequence of values in 1..6, and play also stops when that sequence runs out (the same holds in SnakesPractice); the randomness of the dice is not modelled.
- ChessPractice.MakeMove: the piece must record an on-board square, as every piece taken from the board does; pieces are values, so aliasing between a piece object and the board is not modelled.
- ChessRoot.Board.constructor: the board takes a given grid because `_init_board` refers to the undefined Rook, Queen and King classes and cannot run, and the pieces are pawns, knights and bishops only.
- ParkingSolutions.Level.constructor: the level takes the sizes of its motorcycle, car and truck blocks instead of deriving them from `num_spots` with the 0.1, 0.7 and 0.2 ratios, and it skips the `self.floor(floor)` call, which raises as written.
- ParkingSolutions.ParkingSpot.Park: the `set_entry_tikme` misspelling, `self.license_plate` on a spot and the MOTORCYCLE/MOTORCYCLLE mismatch, which raise as written, are treated as abstract; only spot occupancy and the ValueError paths are modelled, and ParkingSpot.Unpark likewise.
- ParkingSolutions.ParkingLot.AddLevel: the new level must share no spot object with the levels already added; adding the same level twice is not modelled.
- ParkingSolutions.ParkingLot.Unpark: the invoice, `select_payment_method` and payment steps after a successful unpark are not modelled.
- UnixSearchSolutions.Search: the root must be a directory; searching from a plain file, which raises AttributeError in the source, is not modelled (the same holds in UnixSearchPractice).
- UnixSearchSolutions.Search: directories are value trees, so a directory added inside itself, on which the search never ends, and a directory shared by two parents, whose files the search reports twice, are not modelled; the exact-result lemmas rely on that (the same holds in UnixSearchPractice).
- LruSolutions.LruCache.Get: keys are integers and values strings, never Python's None; a stored None, which `get` returns exactly as it reports a miss, is not modelled, so the model tells hits from misses where the source may not (the same holds in LruPractice).
- LruSolutions.LruCache.constructor: requires a positive capacity; the ValueError for any other capacity is modelled by NewCache (the same holds in LruPractice).
- MovieSolutions.BookingSystem.ConfirmBooking: requires every stored booking to be filed under its own id and to hold distinct seats, which CreateBooking keeps true (the same holds in MoviePractice).
- The `theater.add` line of the movie demo, which raises as written, is not modelled.
- The order in which `get_available_seats` lists seats follows dictionary insertion order, which the model keeps as the order seats were added.
