# Verified models of ServeD's vendored libraries

These Dafny files model three libraries that ServeD ships, and ServeD's own JSON escaper, and prove what the code
is meant to do. `dafny verify dfyconfig.toml` checks everything.

* **FANN** (`lib/fann`). All neurons lie in one array and all weights in another. `FannGraph` says what a feed-forward
  graph computes, `FannLayout` and `FannRunLayout` how arrays stand for a graph, `CascadeMeaning` what installing a
  candidate does to the computed function, `FannActivation` what steepness, limits and the error function do,
  `FannGradient` why reverse accumulation is forward differentiation, and `FannSparse` how two layers are wired at
  random. `Fann.dfy` is the network object whose methods change the arrays in place. Weights and values are reals,
  connection pointers are neuron numbers, activation functions and their derivatives are arbitrary functions, and random
  numbers are arbitrary choices.
* **hiredis** (`lib/hiredis`). `Resp` is the explicit-stack parser of the Redis serialization protocol as a function of
  stack, partial reply and unread bytes; `RespStream` adds the buffer; `RespInvariant` and `RespRoundTrip` prove the
  stack invariant and the round trip; `RedisReader.dfy` is the reader object, proved to compute exactly these functions.
  `RedisCommand.dfy` formats commands and finds their arguments again, `RedisAsync.dfy` is the asynchronous context
  over that byte stream, `RedisDict.dfy` the chained hash table, `Sds.dfy` the strings, and `SdsLine.dfy` the lines that
  splitting accepts and refuses.
* **jsoncpp** (`lib/jsoncpp`) and `escapeJsonString` (`lib/kickstart`). `JsonValue` is the container, `JsonParser` what
  the reader computes, `JsonText` what a text of a value is (its tokens with any white space between them),
  `JsonRoundTrip` the proof that reading inverts writing, `JsonSpelling` what strings and numerals mean in the standard's
  own terms, `JsonRejection` what is refused and where, and `JsonReader.dfy`, `JsonWriter.dfy` and
  `JsonStyledWriter.dfy` the objects. The standard is RFC 8259, with UTF-8 from RFC 3629 and surrogate pairs from
  RFC 2781.

Objects keep their fields and their loops; each method is proved against a function or a predicate, and the theorems
are about those. Where the code and its documentation differ the model follows the code: output j of a grown network
receives the candidate weight O-1-j although training scores weight j; `sdscatrepr` is documented as the inverse of
`sdssplitargs`, which does not decode hexadecimal escapes; what the JSON reader accepts beyond RFC 8259 (any punctuation
between array elements, a comma behind a member with an empty name, a minus sign alone, comments) is in `JsonLeniency`.

## Model

| member | source | states |
|---|---|---|
| `FannNetwork.Fann.RunInstallRun` | lib/fann/fann_cascade.c:843-971 | main result, on the object: running, installing the best candidate and running again on the same input leaves all neurons before the outputs as they were; the sum behind output j has exactly one more term, the multiplier times outgoing weight O-1-j times the new value; with multiplier 0 the same output comes out |
| `FannNetwork.Fann.InstallMeans` | lib/fann/fann_cascade.c:843-971 | main result: for every shortcut network in memory, every candidate in place, every input and every activation, installing leaves the values of all neurons before the outputs alone, adds to the sum of output j exactly multiplier × (the candidate's outgoing weight O-1-j) × (the new neuron's value), and with multiplier 0 keeps every output |
| `FannNetwork.Fann.InstallCandidate` | lib/fann/fann_cascade.c:964-971 | the arrays after installation are a well-formed shortcut network whose graph is the old graph with the candidate spliced in and the outputs extended; one neuron and one layer more, `totalNeurons` connections more |
| `FannNetwork.Fann.CandidateFits` | lib/fann/fann_cascade.c:843-962 | a candidate behind the gap reads no output, so it can stand in front of them |
| `FannNetwork.Fann.AddCandidateNeuron` | lib/fann/fann_cascade.c:843-962 | splicing the candidate's neuron and weights into the empty layer keeps the layout and yields the installed graph |
| `FannNetwork.Fann.MoveOutputs` | lib/fann/fann_cascade.c:887-930 | the loop over the outputs, last one first: each output moves up by one, its weights move right into the gap, none is lost or overwritten before it is moved, and each gets its new weight |
| `FannNetwork.Fann.MoveOutput` | lib/fann/fann_cascade.c:893-929 | one output: its weights shift right by the current offset, and the slot behind them gets the multiplied outgoing weight; nothing else changes |
| `FannNetwork.Fann.SpliceArrays` | lib/fann/fann_cascade.c:887-955 | neurons and weights after the outputs moved and the candidate was copied to the freed place |
| `FannNetwork.ShiftRight` | lib/fann/fann_cascade.c:899-908 | an in-place shift of overlapping weight ranges, last weight first, loses nothing |
| `FannNetwork.Fann.AddLayer` | lib/fann/fann_cascade.c:782-816 | an empty layer at `pos` keeps the layout and the graph |
| `FannNetwork.Fann.InitializeCandidates` | lib/fann/fann_cascade.c:365-490 | the network itself stays what it is, and every kind of candidate gets a place behind the gap of one neuron and `totalNeurons` weights, which is exactly what installation needs; the candidates' weights lie within the scale, cut off at 0.5 and 8 |
| `FannNetwork.Fann.FillCandidates` | lib/fann/fann_cascade.c:428-468 | each combination of activation and steepness is set up `candidateGroups` times, each candidate owning the next weights |
| `FannLayout.KindsAt` | lib/fann/fann_cascade.c:437-468 | the order of the candidates: each activation function with each steepness, and every pair as many times in a row as there are groups |
| `FannNetwork.Fann.InitializeCandidateWeights` | lib/fann/fann_cascade.c:341-363 | only the candidate's own weights change; all lie within the scale, and only the bias weight can be negative |
| `FannNetwork.Fann.CascadeRound` | lib/fann/fann_cascade.c:63-108 | one round of set-up, training and installation of any candidate keeps the layout invariant and adds one neuron and one layer |
| `FannNetwork.Fann.CascadeTrain` | lib/fann/fann_cascade.c:48-126 | after any number of rounds and an exit at any round: the layout invariant, one neuron and one layer per round, and connection pointers that agree with the contiguous wiring |
| `FannNetwork.Fann.SetShortcutConnections` | lib/fann/fann_cascade.c:818-841 | afterwards connection i of every neuron points at neuron i again |
| `CascadeMeaning.InstallKeepsMeaning` | lib/fann/fann_cascade.c:843-962 | the same meaning theorem on graphs: earlier values kept, new unit computes the candidate, each output's sum grows by one term |
| `CascadeMeaning.ZeroMultiplierKeepsOutputs` | lib/fann/fann_cascade.c:923-929 | multiplier 0 leaves every output value unchanged on every input |
| `CascadeMeaning.TrainedPairingIffSingleOutput` | lib/fann/fann_cascade.c:630-634 | training pairs outgoing weight j with output j; installation honours this for all weights if and only if there is at most one output |
| `CascadeMeaning.InstalledWellFormed` | lib/fann/fann_cascade.c:843-962 | the installed graph is feed-forward and its outputs again come last, so rounds can be repeated |
| `FannLayout.SplicingKeepsLayout` | lib/fann/fann_cascade.c:843-962 | layer ranges still tile the neurons, connection ranges still tile the weights, and every neuron still owns one weight per earlier neuron |
| `FannLayout.SplicingInstalls` | lib/fann/fann_cascade.c:887-955 | the spliced arrays read as the installed graph, unit by unit |
| `FannLayout.SlidingStep` | lib/fann/fann_cascade.c:893-929 | one turn of the shifting loop: everything still to be moved is still in its old place |
| `FannLayout.EmptyLayerKeepsLayout` | lib/fann/fann_cascade.c:782-816 | squeezing in an empty layer keeps the tiling of layers and weights |
| `FannLayout.CandidatePlaces` | lib/fann/fann_cascade.c:428-468 | where each candidate's neuron and weights lie, and that they are behind the gap |
| `FannLayout.PrefixKeepsNetwork` | lib/fann/fann_cascade.c:373-420 | reallocating and filling behind the network leaves its graph alone |
| `FannNetwork.Fann.CreateShortcut` | lib/fann/fann.c:394-525 | every new network satisfies the shortcut layout, with pointers that agree with it |
| `FannNetwork.Fann.PlaceConnections` | lib/fann/fann.c:461-488 | each neuron behind the input layer owns one weight per earlier neuron, and these ranges tile the weights |
| `FannNetwork.Fann.ConnectToEarlier` | lib/fann/fann.c:496-518 | pointer i of every neuron names neuron i |
| `FannNetwork.Fann.ShortcutRunnable` | lib/fann/fann.c:527-667 | a full-rate shortcut network runs the graph that cascade training rearranges, and would run the same graph through its pointers |
| `FannNetwork.Fann.Run` | lib/fann/fann.c:527-777 | every neuron ends with the value of its unit in the graph, in all three branches: inputs hold the input vector, the bias holds one, a neuron without connections one, and any other keeps as its sum the plain dot product times its steepness, cut off at plus and minus 150 through the steepness, and as its value the activation of that sum; only values and sums change |
| `FannNetwork.Fann.RunNeuron` | lib/fann/fann.c:579-764 | one neuron: the bias value, or the steepened dot product within its limits as the sum and the activation of that sum as the value |
| `FannActivation.ClipLimits` | lib/fann/fann.c:753-759 | the limits: between plus and minus 150 through a positive steepness the steepened sum is kept, beyond them it is the limit on that side; a steepness of zero gives no limit, and a negative one turns the limits over, so that the sum is always one of them |
| `FannNetwork.Fann.SumContiguous` | lib/fann/fann.c:611-633 | the loop unrolled by four equals the plain weighted sum |
| `FannNetwork.Fann.SumLookedUp` | lib/fann/fann.c:642-667 | so does the unrolled loop through pointers |
| `FannRunLayout.PathsAgree` | lib/fann/fann.c:599-667 | contiguous and looked-up runs evaluate the same graph whenever the pointers agree with the wiring |
| `FannRunLayout.ShortcutRuns` | lib/fann/fann.c:601-604 | the run of a shortcut layout is the graph of that layout |
| `FannNetwork.Fann.CreateSparse` | lib/fann/fann.c:93-353 | for every rate and all positive layer sizes the network can be run and trained; between layers of a and b neurons the slots that the neurons own add up to m + b, where m is max(a, b) if rate × a × b is below max(a, b) - 0.5 and otherwise rate × a × b rounded to the nearest; `totalConnections` is the sum over the layers; at the full rate the pointers agree with the layered wiring, below it the slots that the neurons own are completely wired |
| `FannSparse.LayerOwnsAsked` | lib/fann/fann.c:172-199 | the neurons of a layer together own what the rate asks for, told without the formula of the code |
| `FannSparse.AskedFor` | lib/fann/fann.c:172-176 | the formula: the larger of the minimum and the rounded share, and one connection more per neuron for the bias |
| `FannSparse.OwnedTotal` | lib/fann/fann.c:205-209 | the connections of all layers so far add up |
| `FannNetwork.Fann.SplitAndConnect` | lib/fann/fann.c:146-353 | the split and the wiring on the arrays, from any placing of the layers, with the same starts for the shares and the wired slots, and as many connections per layer as the rate asks for |
| `FannSparse.NeuronOfWired` | lib/fann/fann.c:164-353 | in such a network neuron i of a layer of b neurons owns exactly floor((m+b)(i+1)/b) - floor((m+b)i/b) connections, where m is what the rate asks for; the first leads to the bias, and all lead to different neurons of the layer before |
| `FannSparse.SourceOfWired` | lib/fann/fann.c:285-313 | and every neuron of the layer before, its bias included, is read by some neuron of the layer |
| `FannSparse.SplitConnections` | lib/fann/fann.c:164-209 | the running split gives neuron i exactly floor(C(i+1)/n) - floor(Ci/n) connections, consecutively, and the bias none |
| `FannSparse.CutEnds` | lib/fann/fann.c:177-207 | all C connections are handed out |
| `FannSparse.CutStep` | lib/fann/fann.c:177-203 | each neuron gets the quotient or one more, which is what the test in the loop decides |
| `FannSparse.ShareSizes` | lib/fann/fann.c:170-203 | every neuron has room for the bias and a source, and never for more sources than there are; at rate 1 for all of them |
| `FannSparse.WireLayer` | lib/fann/fann.c:268-337 | after the three passes every slot is filled, each neuron's sources are distinct and include the bias, and every source feeds some neuron |
| `FannSparse.ConnectBias` | lib/fann/fann.c:274-283 | the first pass puts the bias into the first slot of each neuron |
| `FannSparse.ConnectSources` | lib/fann/fann.c:285-313 | the second pass connects every source to one neuron that has room |
| `FannSparse.RoomSomewhere` | lib/fann/fann.c:292-300 | at each turn of the first rejection loop some choice succeeds |
| `FannSparse.FillNeuron` | lib/fann/fann.c:315-353 | the third pass fills a neuron's empty slots with sources it does not have |
| `FannSparse.SourceLeft` | lib/fann/fann.c:325-345 | at each turn of the second rejection loop some choice succeeds |
| `FannSparse.LastSlotTells` | lib/fann/fann.c:299-300 | testing the last slot tells whether a neuron has room |
| `FannSparse.WireAll` | lib/fann/fann.c:268-353 | every layer is completely wired |
| `FannSparse.ConnectFull` | lib/fann/fann.c:226-252 | at the full rate each neuron's slots name all neurons of the layer before, in order |
| `FannSparseRun.SparseRuns` | lib/fann/fann.c:642-667 | a sparsely wired network can be run by looking up its connections |
| `FannSparseRun.FullRuns` | lib/fann/fann.c:226-252 | a fully connected one can be run by walking the layer before, and its pointers lead to the same neurons |
| `FannSparseRun.OwnedAscend` | lib/fann/fann.c:164-209 | neurons own disjoint, ascending ranges of weights |
| `FannNetwork.Fann.AccumulateGradient` | lib/fann/fann_train.c:227-536 | main result: for every runnable net and sample, in the layered, shortcut and looked-up branches alike, each connection's slope grows by the sum over outputs of (the output's share of the error × the forward chain-rule derivative of that output in this weight); the share is d, or with the error function the logarithm of (1+d)/(1-d) up to 0.9999999 and 17 with the sign of d beyond, where d is the distance to the target, halved for the symmetric activations; with an increasing logarithm every share has the sign of the distance, and a net with one output has every slope grow in the direction of its derivative times that sign |
| `FannNetwork.Fann.GrowthPoints` | lib/fann/fann_train.c:264-276 | the direction of learning: accumulated slopes of a net with one output have, weight by weight, the sign of the derivative times the sign of the distance to the target |
| `FannNetwork.Fann.SharesHaveMeaning` | lib/fann/fann_train.c:257-282 | every output's share of the error, told without the code's own error function |
| `FannNetwork.Fann.SharesPointToTarget` | lib/fann/fann_train.c:264-272 | with an increasing logarithm that is zero at one, every share points from the value to the target |
| `FannActivation.StretchIsShare` | lib/fann/fann_train.c:110-137 | the error function and the halving for exactly the eight symmetric activations |
| `FannActivation.ShareSign` | lib/fann/fann_train.c:264-272 | the sign of one share |
| `FannGradient.Duality` | lib/fann/fann_train.c:291-365 | reverse accumulation equals forward differentiation: an owner's error times the value a connection reads is the directional derivative of the weighted outputs |
| `FannGradient.Exchange` | lib/fann/fann_train.c:306-352 | the double sum behind the duality may be taken in either order |
| `FannRunLayout.SlopesAreGradient` | lib/fann/fann_train.c:455-536 | accumulated slopes are the gradient |
| `FannNetwork.Fann.ComputeMSE` | lib/fann/fann_train.c:110-283 | errors are cleared, then each output's error is its derivative times its share of the error, where the share is the distance d to the target (halved for the symmetric activations), or with the error function the logarithm of (1+d)/(1-d), and 17 with the sign of d beyond 0.9999999; the running error grows by the sum of the squared distances, and the bit-fail count by the number of outputs whose distance reaches the limit on either side |
| `FannNetwork.Fann.BackpropagateMSE` | lib/fann/fann_train.c:291-365 | the in-place loops leave in every neuron its slope times what all later neurons send back |
| `FannNetwork.Fann.SendBack` | lib/fann/fann_train.c:311-351 | one neuron adds its error times each weight to the error of the weight's source |
| `FannNetwork.Fann.UpdateSlopesBatch` | lib/fann/fann_train.c:455-536 | each connection's slope grows by its neuron's error times its source's value, and no other slope changes |
| `FannNetwork.Fann.ComputeErrors` | lib/fann/fann_train.c:227-365 | comparing and backpropagating together give the errors of all neurons |
| `FannNetwork.Fann.ShortcutOwnsWeights` | lib/fann/fann_train.c:455-536 | every shortcut layout meets the ownership of weights that slope accumulation relies on |
| `HiredisReader.RedisReader.NextReply` | lib/hiredis/hiredis.c:617-665 | the reader object after the call is exactly the state that the stream function computes, reply or error included |
| `HiredisReader.RedisReader.FeedBytes` | lib/hiredis/hiredis.c:585-615 | appends to the buffer, or does nothing once there is an error |
| `HiredisReader.RedisReader.ProcessItem` | lib/hiredis/hiredis.c:507-554 | one item of the explicit-stack parser: done, waiting for bytes, or an error |
| `HiredisReader.RedisReader.ProcessLineItem` | lib/hiredis/hiredis.c:355-387 | status, error and integer lines |
| `HiredisReader.RedisReader.ProcessBulkItem` | lib/hiredis/hiredis.c:389-440 | bulk strings: a nil for a negative length, otherwise only when all bytes have arrived |
| `HiredisReader.RedisReader.ProcessMultiBulkItem` | lib/hiredis/hiredis.c:442-505 | arrays: an error at the ninth level, a nil for -1, an empty array, or a new level |
| `HiredisReader.RedisReader.MoveToNextTask` | lib/hiredis/hiredis.c:330-353 | steps to the next element, up through all finished arrays |
| `HiredisReader.RedisReader.SeekNewline` | lib/hiredis/hiredis.c:260-284 | finds exactly the first line end, although it may look at the terminating zero |
| `HiredisReader.RedisReader.ReadLongLong` | lib/hiredis/hiredis.c:288-313 | the number on a line, -1 for anything unexpected |
| `Resp.ItemProgress` | lib/hiredis/hiredis.c:507-554 | every item that is done uses up bytes, so the reply loop ends |
| `Resp.RunResumes` | lib/hiredis/hiredis.c:617-665 | stopping at any byte and resuming gives what an uninterrupted run gives |
| `RespStream.ChunksDoNotMatter` | lib/hiredis/hiredis.c:585-665 | main result: for every byte string and every split into feeds, draining after each feed gives the same replies and the same final state as one feed, across the discard of consumed bytes at 1024 |
| `RespStream.FreshChunksDoNotMatter` | lib/hiredis/hiredis.c:556-665 | the same for a fresh reader, the error included |
| `RespInvariant.ItemKeepsInv` | lib/hiredis/hiredis.c:442-554 | each step keeps the stack invariant: depth, array parents, indices in range, and exactly the slots not yet reached unset |
| `RespInvariant.RunKeepsInv` | lib/hiredis/hiredis.c:617-665 | a whole run keeps it, and an emitted reply has no unset slot |
| `RespInvariant.EveryRunKeepsInv` | lib/hiredis/hiredis.c:556-665 | every run of feeds and drains from a new reader keeps it, and every reply handed out is complete |
| `RespRoundTrip.ReplyRoundTrip` | lib/hiredis/hiredis.c:442-505 | main result: a reader between replies that is fed the encoding of a reply and any suffix returns exactly that reply and stops at the suffix if and only if its arrays sit at levels 0 to 7; deeper ones give a protocol error |
| `RespRoundTrip.ReadsWire` | lib/hiredis/hiredis.c:355-554 | an item that fits is read back at any place of any stack |
| `RespRoundTrip.RefusesDeepWire` | lib/hiredis/hiredis.c:444-449 | an array item at the ninth level is an error |
| `RespRoundTrip.LineEndCutsStatus` | lib/hiredis/hiredis.c:260-284 | a status line is read back if and only if it does not contain a line end |
| `RespRoundTrip.ReadsNumeral` | lib/hiredis/hiredis.c:288-313 | numerals are read back |
| `RespRoundTrip.NumberLine` | lib/hiredis/hiredis.c:288-313 | what any line reads as: digits with or without a sign up to a carriage return are the number, anything else in front of that makes -1 |
| `RespRoundTrip.UnknownTypeFails` | lib/hiredis/hiredis.c:512-533 | a first byte that names no type is the protocol error with this byte |
| `RespStream.ConsumedIsDropped` | lib/hiredis/hiredis.c:650-656 | at 1024 consumed bytes the buffer is cut, and what is still unread stays the same |
| `HiredisCommand.FormatCommandArgv` | lib/hiredis/hiredis.c:939-971 | the precomputed length equals the bytes written, as its assertion demands, and the bytes are the encoded array with its terminating zero |
| `HiredisCommand.CommandLength` | lib/hiredis/hiredis.c:946-951 | the length computed beforehand |
| `HiredisCommand.IntLen` | lib/hiredis/hiredis.c:668-679 | the number of characters of a number, sign included |
| `HiredisCommand.BulkLen` | lib/hiredis/hiredis.c:682-684 | the length of an encoded argument |
| `HiredisCommand.CommandRoundTrip` | lib/hiredis/hiredis.c:939-971 | main result: the reader parses a formatted command, whatever bytes its arguments hold, to the array of exactly those arguments, under any suffix |
| `HiredisCommand.ArgumentsOfCommand` | lib/hiredis/async.c:539-551 | main result: iterating `nextArgument` over a formatted command finds exactly its arguments, in order, and then stops |
| `HiredisCommand.AtArgument` | lib/hiredis/async.c:539-551 | one argument, and the position right behind it |
| `HiredisCommand.AtCommand` | lib/hiredis/async.c:539-551 | the first argument is found behind the header |
| `HiredisCommand.WhenArgumentsEnd` | lib/hiredis/async.c:539-551 | on any string: there is no further argument if and only if no dollar sign follows, and the assertion fails if and only if no carriage return stands behind the first one |
| `RedisAsync.AsyncContext.EveryCallbackOnce` | lib/hiredis/async.c:202-337 | main result: once the context is freed every accepted command has had its callback exactly once, in order of acceptance; command k with reply k of the bytes received, however they were cut into reads, and from some command on with none |
| `RedisAsync.AsyncContext.WhenAssertionsFail` | lib/hiredis/async.c:306-451 | main result: a reply trips the assertion that the context is subscribed if and only if more replies came than commands were accepted, the first one too many is no error, and nobody freed the context; a clean disconnect trips its assertion if and only if the context is no longer alive and some accepted command never had its callback |
| `RedisAsync.AsyncContext.ProcessCallbacks` | lib/hiredis/async.c:386-462 | keeps the invariant over all replies that the bytes hold, callbacks re-entering at will; a context that is closing with an empty output buffer never stays alive, and one is freed only when it is closing, freed or in error; with an empty queue the first new reply decides, and without a new reply the flags, the output buffer and the queue do |
| `RedisAsync.AsyncContext.StopOrClose` | lib/hiredis/async.c:386-462 | when no reply is left: a broken stream frees the context, and a closing one with an empty output buffer is freed or aborts as the queue says |
| `RedisAsync.AsyncContext.ProcessReply` | lib/hiredis/async.c:409-451 | with a waiting callback the reply goes to the oldest one and nothing aborts; without one an error reply closes the context, and any other trips the assertion |
| `RedisAsync.AsyncContext.Release` | lib/hiredis/async.c:250-292 | the drain ends because no command is accepted any more; all waiting callbacks run without a reply; then a connected user is told once, of an error only if there is one and nobody freed the context |
| `RedisAsync.AsyncContext.Teardown` | lib/hiredis/async.c:306-324 | the assertion of a clean disconnect fails if and only if there is no error and a callback waits; otherwise the context is freed |
| `RedisAsync.AsyncContext.RequestDisconnect` | lib/hiredis/async.c:332-337 | from a callback only a mark; otherwise the context is freed if and only if nothing waits |
| `RedisAsync.AsyncContext.Free` | lib/hiredis/async.c:298-303 | from a callback only a mark; otherwise the context is freed, with status OK |
| `RedisAsync.AsyncContext.Command` | lib/hiredis/async.c:556-618 | a regular command is refused if and only if the context is closing; otherwise it is queued last |
| `RedisAsync.AsyncContext.RunCallback` | lib/hiredis/async.c:240-247 | a callback may make any calls in any order; once the context is closing the queue stays as it is |
| `RedisAsync.AsyncContext.HandleConnect` | lib/hiredis/async.c:467-484 | refused: freed; in progress: nothing; otherwise connected |
| `RedisAsync.AsyncContext.HandleRead` | lib/hiredis/async.c:489-508 | every read event keeps the invariant; a read error or a refused connection frees the context; otherwise it stays alive only if it is not closing or output is left, and a reply that nobody waits for closes it or aborts |
| `RedisAsync.AsyncContext.HandleWrite` | lib/hiredis/async.c:510-535 | every write event keeps the invariant and loses no callback |
| `RedisAsync.CleanDisconnectCanFail` | lib/hiredis/async.c:312-314 | a run that reaches the failing assertion of the clean disconnect |
| `RedisAsync.ReplyWithoutCommand` | lib/hiredis/async.c:409-437 | for every reply of the protocol: sent to a connected context without a command it trips the assertion, unless it is an error, which closes the context |
| `RedisAsync.CallbackList.Push` | lib/hiredis/async.c:202-222 | the linked queue gains the callback at its end |
| `RedisAsync.CallbackList.Shift` | lib/hiredis/async.c:224-238 | the linked queue loses its first callback, or is empty |
| `RedisDict.Dict.Add` | lib/hiredis/dict.c:135-154 | the table behaves like a map: adding fails if and only if the key is present |
| `RedisDict.Dict.Replace` | lib/hiredis/dict.c:160-179 | adds or updates, and tells which |
| `RedisDict.Dict.Delete` | lib/hiredis/dict.c:182-210 | removes exactly this key, if present; every other entry stays at its place |
| `RedisDict.Dict.Find` | lib/hiredis/dict.c:243-256 | finds the key's entry if and only if the map has the key, with the map's value |
| `RedisDict.Dict.KeyIndex` | lib/hiredis/dict.c:320-337 | -1 if and only if the key is present; the table grows exactly when it is empty or full, to 4 or to the least power of two that holds twice its entries, with the same contents |
| `RedisDict.Dict.Expand` | lib/hiredis/dict.c:88-132 | fails if and only if the size asked for is too small; otherwise the same contents, in a table of a power of two |
| `RedisDict.Dict.Rebuild` | lib/hiredis/dict.c:96-131 | moving all entries ends with no entry left behind, as the assertion demands |
| `RedisDict.Dict.MoveAll` | lib/hiredis/dict.c:106-125 | both loops relink every entry once, also when they stop early |
| `RedisDict.Dict.MoveChain` | lib/hiredis/dict.c:112-124 | relinking a chain in place builds exactly the chains that pushing its entries one by one gives |
| `RedisDict.NextPower` | lib/hiredis/dict.c:306-315 | the least power of two, from 4, that reaches the size |
| `RedisDict.RehashKeeps` | lib/hiredis/dict.c:106-125 | rehashing keeps every entry, places each in its bucket and keeps the count |
| `RedisDict.PushAllKeeps` | lib/hiredis/dict.c:112-124 | the same for one chain |
| `RedisDict.RemoveKeeps` | lib/hiredis/dict.c:195-204 | unlinking removes one entry and misplaces none |
| `RedisDict.BucketTells` | lib/hiredis/dict.c:243-256 | a key is in the map if and only if it is in its bucket |
| `RedisDict.DictIterator.Next` | lib/hiredis/dict.c:268-286 | entries come one by one in table order, and then null |
| `RedisDict.DictIterator.constructor` | lib/hiredis/dict.c:258-266 | at the start every entry is still to come, once |
| `RedisDict.DictIterator.DeleteReturned` | lib/hiredis/dict.c:182-286 | deleting the entry that was returned last removes exactly its key, and the iterator goes on with the same entries still to come |
| `RedisDict.DictIterator.NextDeleteNext` | lib/hiredis/dict.c:268-286 | next, delete, next: the second entry is the one that would have come anyway |
| `RedisDict.IterationSurvivesDelete` | lib/hiredis/dict.c:278-282 | why: unlinking that entry moves the place of the iterator back by one and leaves what is still to come the same |
| `SdsStrings.QuotingRoundTrip` | lib/hiredis/sds.c:379-502 | main result: splitting the quoted forms of any strings gives one argument for each; all are read back if and only if every byte lies from 32 to 126 or is bell, backspace, tab, newline or carriage return |
| `SdsStrings.SplitArgs` | lib/hiredis/sds.c:419-502 | main result, over every line: blanks and words with blanks between them split into exactly those words, where a word is a plain part and perhaps a quoted part behind it; a line is refused exactly when its rest behind such words is a word whose quoted part is not closed, or whose closing quote neither a blank nor the end follows; every line is of one kind or the other |
| `SdsStrings.WordsSplit` | lib/hiredis/sds.c:425-494 | words split into their meanings: the plain part as it stands, and in quotes n, r, t, b and a behind a backslash as control characters |
| `SdsStrings.BrokenFails` | lib/hiredis/sds.c:453-459 | an unterminated quote, or a closing one that something else follows, fails whatever words come before |
| `SdsStrings.LineParts` | lib/hiredis/sds.c:425-502 | every line consists of words up to its end or of words and a broken one |
| `SdsStrings.GetToken` | lib/hiredis/sds.c:436-482 | one token, inside and outside quotes, as the function of the same loop gives it |
| `SdsStrings.EscapeRereads` | lib/hiredis/sds.c:438-460 | how each escape is read; the hexadecimal one is not decoded |
| `SdsStrings.UnreadableIsHex` | lib/hiredis/sds.c:379-405 | a byte that is not read back is written with its two lower-case hexadecimal digits |
| `SdsStrings.Sds.CatRepr` | lib/hiredis/sds.c:379-405 | appends the quoted form |
| `SdsStrings.Sds.CatLen` | lib/hiredis/sds.c:127-139 | appends, with the header fields and the terminating zero right |
| `SdsStrings.Sds.MakeRoomFor` | lib/hiredis/sds.c:88-106 | makes room without changing the contents |
| `SdsStrings.Sds.Cut` | lib/hiredis/sds.c:219-248 | keeps the range asked for, negative indices counting from the end |
| `SdsStrings.RangeKeeps` | lib/hiredis/sds.c:219-248 | a character is kept if and only if its position lies between the two, where a negative one counts from the end and no further than the start; kept characters keep their order |
| `JsonRoundTrip.RoundTrip` | lib/jsoncpp/json_reader.cpp:150-242 | main result: every value without reals and with integers from -2147483639 to 4294967289 is read back from its tokens, whatever white space is around them, without an error, up to unsigned integers that fit becoming signed and holes becoming nulls; with a strict root success means an array or object |
| `JsonRoundTrip.PrintingsAgree` | lib/jsoncpp/json_writer.cpp:197-480 | main result: two printings of a value that differ only in white space are the same token stream, reals included, and read back as the same value |
| `JsonRoundTrip.TokenizerFindsStream` | lib/jsoncpp/json_reader.cpp:273-345 | the tokenizer finds exactly the tokens of a printing |
| `JsonRoundTrip.ReadsValue` | lib/jsoncpp/json_reader.cpp:194-242 | a value is read back in front of any rest of a stream |
| `JsonRoundTrip.StringRoundTrip` | lib/jsoncpp/json_reader.cpp:463-476 | main result: a quoted sequence of escapes is one token that ends at the right quote under any suffix, and decodes to what the escapes mean |
| `JsonSpelling.SpelledStringReads` | lib/jsoncpp/json_reader.cpp:657-756 | main result: characters, short escapes, code units in digits of either case and pairs of them, told without the functions of the reader, are one token between quotes, and it decodes to what they say |
| `JsonSpelling.SpelledStringIsValue` | lib/jsoncpp/json_reader.cpp:646-655 | as a value such a string is kept up to its first zero |
| `JsonSpelling.DigitIffSpelled` | lib/jsoncpp/json_reader.cpp:742-754 | a character is taken for a hexadecimal digit if and only if it is one, of either case, and for its value |
| `JsonSpelling.ShortEscapes` | lib/jsoncpp/json_reader.cpp:674-684 | each of the eight short escapes means its own byte, and no other character makes one |
| `JsonSpelling.BrokenStringFails` | lib/jsoncpp/json_reader.cpp:657-756 | behind any good pieces an escape that stands for nothing refuses the string, with the reason and the place: an unknown letter, too few characters, no digit, or no second half of a pair |
| `JsonSpelling.WritersEscape` | lib/jsoncpp/json_writer.cpp:111-172 | which bytes the writers escape, and how |
| `JsonSpelling.WriterTextIsPrintable` | lib/jsoncpp/json_writer.cpp:111-172 | what jsoncpp writes of a string holds no control character |
| `JsonSpelling.WhiteSpacePasses` | lib/jsoncpp/json_reader.cpp:348-359 | exactly the four white-space characters are passed over in front of a token |
| `JsonSpelling.NumberTokenEnds` | lib/jsoncpp/json_reader.cpp:451-461 | a number token ends at the first character that may not stand in a numeral |
| `JsonRoundTrip.WriterStringRoundTrip` | lib/jsoncpp/json_writer.cpp:111-172 | decoding undoes the quoting of the writers |
| `JsonRoundTrip.KickstartStringRoundTrip` | lib/kickstart/utils.cc:141-160 | decoding undoes `escapeJsonString` between quotes, for every string |
| `JsonSpelling.EscapedTextRoundTrip` | lib/jsoncpp/json_reader.cpp:657-756 | any Unicode text written as escaped code units, in digits of either case and with surrogate pairs, decodes to its UTF-8 bytes |
| `JsonRoundTrip.NumeralRoundTrip` | lib/jsoncpp/json_reader.cpp:581-616 | a numeral is read as its number if and only if it lies from -2147483639 to 4294967289; otherwise it becomes a double |
| `JsonSpelling.FractionIsDouble` | lib/jsoncpp/json_reader.cpp:581-630 | every numeral with a fraction or an exponent is one token and becomes the double that its text is scanned as, or one error |
| `JsonLeniency.AnySeparatorPasses` | lib/jsoncpp/json_reader.cpp:553-577 | with any punctuation but a closing bracket between its elements an array is read as with commas, since the check of the separator can never fail |
| `JsonLeniency.TrailingCommaPasses` | lib/jsoncpp/json_reader.cpp:479-535 | a comma in front of the closing brace passes if and only if the last name is empty; otherwise it is the one error |
| `JsonLeniency.LoneMinusIsZero` | lib/jsoncpp/json_reader.cpp:581-616 | a minus sign without digits is read as zero |
| `JsonLeniency.CommentPasses` | lib/jsoncpp/json_reader.cpp:377-448 | a comment is one token up to its end; in front of a value it passes if and only if comments are allowed, in front of a name always, and behind the value of a member it passes with the separator unchecked |
| `JsonRejection.MissingColonFails` | lib/jsoncpp/json_reader.cpp:501-506 | any other token in place of the colon is the one error, at this token, and the members before are kept |
| `JsonRejection.MissingCommaFails` | lib/jsoncpp/json_reader.cpp:517-527 | any other token in place of the comma or the closing brace is the one error, at this token, and the members so far are kept |
| `JsonRejection.UnclosedObjectFails` | lib/jsoncpp/json_reader.cpp:517-527 | so is the end of the text |
| `JsonRejection.RecoveredIsFirst` | lib/jsoncpp/json_reader.cpp:773-787 | recovery goes over tokens up to the first one of the kind looked for, or the end of the stream |
| `JsonUnicode.Utf8OfCodePoint` | lib/jsoncpp/json_reader.cpp:69-103 | the bytes carry the code point in the way of section 3 of RFC 3629, and are a character of its section 4 if and only if the code point is no surrogate |
| `JsonUnicode.Utf8IsExact` | lib/jsoncpp/json_reader.cpp:69-103 | every character of section 4 of RFC 3629 is what its code point is encoded as |
| `JsonUnicode.PairCombines` | lib/jsoncpp/json_reader.cpp:703-731 | the halves that section 2.1 of RFC 2781 makes of a code point combine to it |
| `JsonText.NormalIsElementwise` | lib/jsoncpp/json_value.cpp:872-1011 | reading back changes neither size nor keys, and works element by element |
| `JsonText.NormalIsItself` | lib/jsoncpp/json_reader.cpp:608-615 | a value without holes whose unsigned integers do not fit a signed one is read back as it is |
| `JsonReader.Reader.Parse` | lib/jsoncpp/json_reader.cpp:150-191 | parsing ends on every byte string, error recovery included, within the document, with the root alone on the stack, and computes the outcome |
| `JsonParser.Parse` | lib/jsoncpp/json_reader.cpp:150-191 | success is the absence of errors; there are never more than two |
| `JsonParser.ReadValue` | lib/jsoncpp/json_reader.cpp:194-242 | a value is found within the document; one error if it fails, none if it succeeds; a success uses up characters |
| `JsonReader.Reader.ReadValue` | lib/jsoncpp/json_reader.cpp:194-242 | ends with the stack as deep as before and everything below the current value unchanged |
| `JsonReader.Reader.ReadObject` | lib/jsoncpp/json_reader.cpp:479-535 | the loop over members, with the trailing comma that an empty name lets pass |
| `JsonReader.Reader.ReadArray` | lib/jsoncpp/json_reader.cpp:538-578 | the loop over elements, whose separators are not checked |
| `JsonReader.Reader.RecoverFromError` | lib/jsoncpp/json_reader.cpp:773-787 | recovery ends behind the token looked for or at the next end of stream, and adds no error |
| `JsonReader.Reader.ReadToken` | lib/jsoncpp/json_reader.cpp:273-345 | one token |
| `JsonReader.Reader.ReadCStyleComment` | lib/jsoncpp/json_reader.cpp:425-435 | block comments, with the look at the terminating zero |
| `JsonReader.Reader.Match` | lib/jsoncpp/json_reader.cpp:362-374 | comparing from the back decides whether the word stands there |
| `JsonReader.Reader.DecodeString` | lib/jsoncpp/json_reader.cpp:657-701 | the decoded text, or one error with its place, as the decoding function gives it |
| `JsonReader.Reader.DecodeUnicodeCodePoint` | lib/jsoncpp/json_reader.cpp:703-731 | one code point from one or two escapes, or one error with its place |
| `JsonReader.Reader.DecodeNumber` | lib/jsoncpp/json_reader.cpp:581-616 | integer, double or error |
| `JsonReader.Reader.ReadChild` | lib/jsoncpp/json_reader.cpp:508-515 | reading into a member is reading with its old value and assigning the result |
| `JsonWriter.FastWriter.Write` | lib/jsoncpp/json_writer.cpp:197-204 | main result: the compact text is the tokens of the value in a row |
| `JsonWriter.FastWriter.WriteValue` | lib/jsoncpp/json_writer.cpp:207-263 | appends the tokens of the value |
| `JsonStyledWriter.StyledWriter.Write` | lib/jsoncpp/json_writer.cpp:276-287 | main result: the indented text is the same tokens with white space around them |
| `JsonStyledWriter.StyledWriter.WriteValue` | lib/jsoncpp/json_writer.cpp:290-348 | appends the tokens of the value and restores the indentation; while the cache is filled, adds exactly one text |
| `JsonStyledWriter.StyledWriter.IsMultilineArray` | lib/jsoncpp/json_writer.cpp:404-432 | a non-empty array is put on one line if and only if it has fewer than 25 elements, none with members or elements of its own, and the line is shorter than 74 characters, brackets, commas and blanks included; leaves a cache that is empty or holds exactly one text per element, in order |
| `JsonStyledWriter.StyledWriter.WriteArrayValue` | lib/jsoncpp/json_writer.cpp:351-401 | an array that fits is written on one line, its texts between bracket and blank and with comma and blank between them; any other over several lines, from the cache when it is filled |
| `JsonWriter.ValueToQuotedString` | lib/jsoncpp/json_writer.cpp:111-172 | the quick path and the escaping loop give the same quoted form |
| `JsonWriter.ValueToString` | lib/jsoncpp/json_writer.cpp:42-64 | the numeral of every signed and unsigned integer; the buffer is never overrun |
| `JsonWriter.UintToString` | lib/jsoncpp/json_writer.cpp:30-40 | the digits, written from the back |
| `JsonWriter.EscapeJsonString` | lib/kickstart/utils.cc:141-160 | the escaped text |
| `JsonValue.ResizeReachesSize` | lib/jsoncpp/json_value.cpp:950-971 | the closing assertion of `resize` holds if and only if the array grows, keeps its size, becomes empty, or is cut right behind an element that is present |
| `JsonValue.GetAssign` | lib/jsoncpp/json_value.cpp:1021-1078 | assigning through `operator[]` changes this key and no other |
| `JsonValue.AssignKeepsOrder` | lib/jsoncpp/json_value.cpp:1021-1042 | and keeps the map in order |
| `JsonValue.BytesBeforeIff` | lib/jsoncpp/json_value.cpp:218-223 | the order of names: at the first difference the smaller byte comes first, and a proper prefix in front of the longer name |
| `JsonValue.AssignResolved` | lib/jsoncpp/json_value.cpp:1021-1042 | a later assignment to the inserted null is an assignment to the key |
| `JsonValue.SizeIsHighest` | lib/jsoncpp/json_value.cpp:872-905 | the size of an array is its highest index plus one |

## Left out

- FannNetwork.Fann.Train: training of outputs and candidates is any change of weights, values and sums that leaves the wiring alone; quickprop, rprop and sarprop update rules are single loops with local clamps.
- FannNetwork.Fann.InitializeCandidates: resetting the training arrays behind the network and the logarithm and power in the scale of the random weights are not modelled; the scale is any number, cut off as in the code.
- FannNetwork.Fann.ComputeMSE: the bit-fail limit is compared as in the default error mode; the fixed-point variant is left out.
- FannNetwork.Fann.CreateSparse: every layer size must be positive (a later layer of size zero divides by zero in the code), the rate must not be negative, the weights are arbitrary, and a missing connection is a number behind the last neuron.
- FannNetwork.Fann.Run: the fixed-point branch is left out, and a steepness of zero gives no limit instead of an infinite one.
- The sparse branch of `fann_update_weights` does not match the sparse wiring and is not modelled.
- Floating-point rounding, exponentials and logarithms: reals and arbitrary functions stand for them.
- Allocation failures and freeing: allocation succeeds, reallocation copies.
- HiredisReader.RedisReader.NextReply: the reply under construction is a value written at a path instead of objects linked by parent pointers; error texts, the buffer capacity and `maxbuf` are left out.
- HiredisReader.RedisReader.ReadLongLong: numbers are unbounded; lengths and counts outside the machine range are left out.
- HiredisReader.RedisReader.ProcessMultiBulkItem: a count below -1 gives an empty array; the code multiplies it into an allocation size.
- HiredisCommand.ArgumentsOfCommand: `strtol` is modelled on the leading digits, which is all a formatted command has behind a dollar sign.
- RedisAsync.AsyncContext.Command: only regular commands; publish/subscribe, monitor mode and their dictionaries and lists are left out, and the command is only counted in the output buffer.
- RedisAsync.AsyncContext.RunCallback: callbacks call only the context's own functions; connect and disconnect callbacks call none.
- RedisDict.Dict.Add: needs fewer than 2^31 entries, since the bucket index is an `int`; keys are compared by content and any function of the content is the hash; duplicating and destroying keys and values is left out.
- RedisDict.Dict: the mask of a power-of-two size is written as a remainder, and `_dictClear` is left out.
- SdsStrings.SplitArgs: tokens are gathered in sequences instead of sds objects.
- JsonReader.Reader: the stack of pointers to values is a stack of values that are written back when they are popped; comments are skipped and not collected; error texts are an enumeration.
- JsonReader.Reader.DecodeDouble: `sscanf` is an arbitrary function of the numeral.
- JsonWriter.FastWriter: printing a real is an arbitrary function; the round trip is for values without reals.
- JsonStyledWriter.StyledWriter: values without comments only.
- JsonRoundTrip.KickstartStringRoundTrip: `escapeJsonString` leaves most control characters as they are, which section 7 of RFC 8259 forbids; the reader accepts them, so the round trip holds, but no conformance is claimed.
- JsonUnicode.CodePointToUtf8: masks and shifts are written as quotients and remainders.
- Strict acceptance of RFC 8259 texts is not claimed: the reader accepts more.
- `redisvFormatCommand`, sockets, event-library hooks, file input and output, and the rest of `lib/kickstart`, `lib/dispel`, `lib/daemon` and `lib/cutelogger`: formatting through varargs, or plumbing around system calls.
