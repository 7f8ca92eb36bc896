# Verified model of the multi-arm Panda stack

A Dafny model of the control code for one or two Franka Panda arms: the GJK distance between arm links, the forward
kinematics and clearances built on it, the synchronised joint motion generator, the allocation of controllers to arms,
the switching of command modes on real and simulated hardware, the streaming of planned trajectories, and the
conversion of homogeneous transforms to poses. `dafny verify dfyconfig.toml` checks the whole project.

Numbers are exact reals. The square root is a parameter about which only its defining equation is used; cosine and
sine are parameters that lie on the unit circle. Loops over the three coordinates of a vector are single vector
operations. Methods and timer callbacks are atomic steps.

## What each part shows

**Distance between links** (`Vectors`, `ConvexHull`, `FiniteSets`, `GjkSimplex`, `GjkSubalgorithm`, `GjkTetrahedron`,
`Gjk`, `GjkRun`, `GjkDistance`, `GjkCycle`). Every kept vertex lies in the plane v.x = v.v, and the gap test lets a new
vertex in only if it lies strictly below that plane. From this the simplex stays affinely independent. The
sub-algorithm returns a foot: a point of the cone of what it keeps, orthogonal to it. A foot that bounds all vertices
is the nearest point of the cone at the newest vertex, and conversely; under the loop's invariant it is the nearest
point of the simplex. For segments and triangles it always is. For tetrahedra it is so in every branch but one, and in
that one never: with the origin on the inner side of one face only and two edges ahead, the code keeps edge 1k where
the origin is beyond edge 1i (openGJK.c lines 448-452, against 1j in the mirrored lines 467-470). The foot is then
still in the hull of what is kept unless it overshoots the end of the edge, and out of it if it does. The tetrahedron
case is total: the two code paths that set nothing cannot be taken, and every path keeps the newest vertex, keeps only
vertices it was given, and leaves v orthogonal to what it keeps.

For any two vertex lists, a run that ends by one of the three tests returns their distance within the stated
tolerances, whatever was misjudged on the way: no v of a run is nearer to the origin than the bodies are to each other,
some two points of the bodies are always exactly as far apart as the result says, and each test bounds all others from
below. A run chooses the nearest point in every step if and only if it misjudges no tetrahedron, and then |v| strictly
decreases and no set of vertices comes back; every v lies in the hull of its simplex if and only if no step overshoots.
What remains is the limit of 25 iterations, and there the result can be wrong: against five vertices and the origin the
loop goes round four simplices, one of them misjudged, until the limit stops it with 44/7 for the squared distance
where a point at 4 exists. Two straight links (end, midpoint, end) span only a plane of differences, so their run never
holds four vertices, needs at most ten refinements out of the 25 allowed, and always returns their distance.

**Arm geometry** (`Kinematics`, `ArmGeometry`, `Collision`). Every frame of the chain is a rigid transform, consecutive
joints stay at squared distance a^2 + d^2, and a joint's angle moves neither the joints up to it nor the other arm. With
the robot's dimensions written out: which of the previous axes each joint turns about and by which offsets it moves on,
where the elbow is, and that the reach from shoulder to wrist depends on the elbow angle alone. Each entry of the
clearance vector is the least of the link-to-link distances, with the separation that guarantees.

**Motion generator** (`MotionPlan`, `MotionPath`, `MotionRate`, `MotionGenerator`). The quadratic for the common
duration always has a non-negative discriminant, so its clamp is idle; all moving joints arrive at exactly the same
time, within their speed limits and with their switching times in order, and no motion of this shape within the limits
could arrive earlier. The three pieces of the path meet, the path moves monotonically from start to goal without
overshoot and never faster than the synchronised speed, and its velocity is continuous and changes no faster than the
limits for leaving and arriving allow. A joint whose distance equals the threshold 1e-6 exactly is skipped by the
planner (which tests `>`) and not by the path (which tests `<`); it then follows whatever its array entries hold. The
motion reports that it has finished exactly when the common time is over and every such joint's entries are, too.

**Controller allocation** (`ResourceNames`, `ControlSets`, `MultiModeController`, `ArmNames`). From a set of controllers that
drives every arm exactly once, a request over loaded pairs is accepted if and only if it names no arm twice and names
all arms of every controller it evicts. Over any run of requests the cover stays exact, rejected requests change
nothing, and no switch engine runs two controllers. Requests that evict different controllers commute and may be
merged. Two facts need care: the start-up set is never counted, and the count looks arms up by name, so a set that
passes it is an exact cover if and only if no two arms share a name. Repeating an accepted request changes nothing
exactly when each of its controllers drives at least one arm; a controller loaded for the empty resource would pile
up. All of this is also stated in the names users write: a set is an exact cover if and only if its names are the arms
in some order, and which requests are accepted, what is active afterwards and whose torques an arm gets follow from the
names alone.

**Command modes** (`CommandModes`, `RealHardware`, `SimHardware`). A prepare that fails half-way leaves earlier arms
switched off or started; it leaves all arms as they were if and only if the request did not effectively name any arm
the loops got past, and an example shows the other case. Still, every change of a mode is marked as pending, marks are
never lost, and a mode is entered only from "off". So on real robots an arm without a pending switch always runs
exactly the loop of its mode, and every start of a loop finds the robot stopped, even though deactivation resets the
mode of a copy only. In simulation at most one actuator family of an arm has a gain, an arm without a pending switch
shows the gains of its mode until activation or deactivation resets a mode other than "off" without marking it, and
requests that name one arm leave all others' modes, commands, gains and biases alone. On real hardware interfaces are
assigned to arms by substring, so a claim on one arm leaves another alone if and only if the other's name occurs in
none of the claimed interfaces. A release does so, too, and also leaves the other alone if its name occurs in all of
them and it already is as a release leaves it. An arm's joint interfaces of one kind can be claimed if and only if the
arm is off and its name does not contain the word of another kind ("effort", "position", "velocity"); for its Cartesian
interfaces the name must not contain "joint" either. From the claimed names to the end: after an accepted request and
the next perform the robot runs the loop that takes these commands, and the simulated arm has exactly their gains.

**Trajectories and poses** (`Interpolation`, `ImpedanceBridge`, `MinimumJerk`, `StreamedMotion`, `Quaternion`). The
bisecting interpolation computes, for each joint of the controller, the piecewise-linear curve through the positions
listed under its name, whatever order the trajectory lists its joints in; a loaded trajectory of duration T is played
in exactly floor(T / period) + 2 messages, the last one at the last waypoint; steps are bounded by the steepest
segment; and no message is one the controller would drop. Minimum-jerk waypoints stay between start and target and
never exceed 1.875 times the scaled joint speed; their velocities and accelerations are the derivatives of their
positions; their time stamps increase if and only if the last one, in nanoseconds, is at least the number of waypoints
after the first, and the bridge reads them back to within half a nanosecond. The comment at franka_ik_solver.py line
342 promises zero jerk at the endpoints; the profile has zero velocity and acceleration there, but a joint's jerk at
either end is zero if and only if the joint does not move. The nanosecond field alone may reach a full second when
rounding carries; the exact condition is proved. Shepperd's conversion never divides by a small number, gives the unit
quaternion of the rotation it is handed, and gives back the quaternion a rotation was made from, up to sign.

## Model

| member | source | states |
|---|---|---|
| `GjkSimplex.LineProjection` | franka_multi_mode_controller/multi_mode_controller/src/openGJK.c:170-182 | the projected point is orthogonal to the line: v.p = v.q = v.v, and it is the affine combination given by the code's quotient |
| `GjkSimplex.PlaneProjection` | franka_multi_mode_controller/multi_mode_controller/src/openGJK.c:184-201 | the projected point is orthogonal to the plane: v.p = v.q = v.r = v.v |
| `GjkSimplex.Hff1Meaning` | franka_multi_mode_controller/multi_mode_controller/src/openGJK.c:203-215 | the accumulated sum is positive exactly when the origin is ahead of p along the edge to q |
| `GjkSimplex.Hff2InFrame` | franka_multi_mode_controller/multi_mode_controller/src/openGJK.c:217-233 | the doubled cross product test is the sign of a barycentric coordinate of the origin, for both orders of the edges |
| `GjkTetrahedron.Hff3InCorner` | franka_multi_mode_controller/multi_mode_controller/src/openGJK.c:235-248 | the three face tests are the signs of the origin's Cramer coordinates in the corner at the newest vertex |
| `GjkSimplex.BoundingPointIsNearest` | franka_multi_mode_controller/multi_mode_controller/src/openGJK.c:250-308 | a hull point v with v.s >= v.v for every vertex s is the nearest point of the hull to the origin |
| `GjkSimplex.NearestBounds` | franka_multi_mode_controller/multi_mode_controller/src/openGJK.c:250-308 | conversely a nearest point has v.s >= v.v for every vertex s |
| `GjkSimplex.FootIffConeNearest` | franka_multi_mode_controller/multi_mode_controller/src/openGJK.c:250-598 | a foot of the kept vertices bounds all vertices if and only if no point of the cone at the newest vertex is nearer to the origin |
| `GjkSimplex.FootIsNearest` | franka_multi_mode_controller/multi_mode_controller/src/openGJK.c:675-709 | under the loop's invariant a foot that bounds all vertices lies in the hull of the kept vertices and is the nearest point of the simplex |
| `GjkSimplex.InHullOrFarther` | franka_multi_mode_controller/multi_mode_controller/src/openGJK.c:692-709 | whatever branch was taken, the new v lies in the hull of the kept vertices or farther from the origin than the old one |
| `GjkSubalgorithm.S1D` | franka_multi_mode_controller/multi_mode_controller/src/openGJK.c:250-262 | v is the nearest point of the ray from the newest vertex, in the cone of the kept vertices; if the newest vertex beats the old nearest point, v is the segment's nearest point and lies in the kept hull |
| `GjkSubalgorithm.S2D` | franka_multi_mode_controller/multi_mode_controller/src/openGJK.c:264-308 | v is the nearest point of the angle at the newest vertex, in every branch; under the loop's invariant it is the triangle's nearest point and lies in the kept hull |
| `GjkSubalgorithm.EdgeCase` | franka_multi_mode_controller/multi_mode_controller/src/openGJK.c:290-304 | beyond an edge the foot on it lies on the ray from the newest vertex and bounds the discarded vertex |
| `GjkSubalgorithm.FaceCase` | franka_multi_mode_controller/multi_mode_controller/src/openGJK.c:273-301 | the tests that select the plane put the projection into the cone at the newest vertex |
| `GjkSubalgorithm.Simplex.KeepFace` | franka_multi_mode_controller/multi_mode_controller/src/openGJK.c:60-85 | the select macros for a face leave exactly the two given vertices and the newest |
| `GjkSubalgorithm.Simplex.KeepEdge` | franka_multi_mode_controller/multi_mode_controller/src/openGJK.c:87-106 | the select macros for an edge leave exactly the given vertex and the newest |
| `GjkTetrahedron.NotOutsideAllFaces` | franka_multi_mode_controller/multi_mode_controller/src/openGJK.c:524-594 | with all three edges ahead, the origin is inside at least one face, so the branch without an assignment for three edges cannot be reached |
| `GjkTetrahedron.InnerIsAhead` | franka_multi_mode_controller/multi_mode_controller/src/openGJK.c:440-443 | with one face turned inward and two edges ahead, the edge opposite to that face is ahead, as the comment claims |
| `GjkTetrahedron.OuterIsBounded` | franka_multi_mode_controller/multi_mode_controller/src/openGJK.c:353-594 | a point level with the newest vertex that bounds the vertices on inner sides bounds the vertex on the outer side as well |
| `GjkTetrahedron.FaceFoot` | franka_multi_mode_controller/multi_mode_controller/src/openGJK.c:389-594 | the tests under which the plane projection on a face is a foot that bounds all four vertices |
| `GjkTetrahedron.EdgeFoot` | franka_multi_mode_controller/multi_mode_controller/src/openGJK.c:389-594 | the tests under which the line projection on an edge is one |
| `GjkTetrahedron.EdgeIsWrong` | franka_multi_mode_controller/multi_mode_controller/src/openGJK.c:448-452 | the foot kept in this branch always leaves vertex i strictly below it |
| `GjkTetrahedron.Enclosed` | franka_multi_mode_controller/multi_mode_controller/src/openGJK.c:348-351 | inside all three faces the origin lies in the cone at the newest vertex, carried by all four |
| `GjkTetrahedron.ReduceOneInner` | franka_multi_mode_controller/multi_mode_controller/src/openGJK.c:383-522 | every branch with one face turned inward returns a foot that bounds all vertices, except the guarded one, which keeps edge 1k and leaves vertex i strictly below v; the error branch is dead |
| `GjkTetrahedron.ReduceNoneInner` | franka_multi_mode_controller/multi_mode_controller/src/openGJK.c:524-594 | outside all three faces every branch returns a foot that bounds all vertices |
| `GjkTetrahedron.ReduceTwoInner` | franka_multi_mode_controller/multi_mode_controller/src/openGJK.c:353-381 | with two faces turned inward, the foot S2D finds on the third bounds the fourth vertex, too |
| `GjkTetrahedron.InteriorIsInner` | franka_multi_mode_controller/multi_mode_controller/src/openGJK.c:332-336 | an enclosed origin is ahead along some edge and inside all three faces, so the early return does not lose it |
| `GjkTetrahedron.S3D` | franka_multi_mode_controller/multi_mode_controller/src/openGJK.c:310-598 | total on independent vertices: keeps a subset with the newest vertex, v in its cone and orthogonal to it; v is the nearest point of the cone, and under the loop's invariant that of the tetrahedron, if and only if the guard of lines 448-452 is not met; it lies in the hull of what is kept if and only if the guard is not met or the foot does not pass the end of the edge; keeps all four, with v zero, when the origin is in the interior |
| `Gjk.Support` | franka_multi_mode_controller/multi_mode_controller/src/openGJK.c:600-622 | afterwards the stored point is at least as far along v as every vertex; it changed only to the first vertex that strictly beats the old one; for links it is never the midpoint |
| `Gjk.Subalgorithm` | franka_multi_mode_controller/multi_mode_controller/src/openGJK.c:624-639 | dispatch keeps the three contracts: a foot of the kept vertices that bounds all if and only if no tetrahedron is misjudged; only a tetrahedron can leave four vertices |
| `Gjk.ChoiceMeans` | franka_multi_mode_controller/multi_mode_controller/src/openGJK.c:624-639 | for every simplex size: nearest point of the cone if and only if not misjudged; under the loop's invariant, nearest point of the simplex if and only if not misjudged, and in the kept hull if and only if it does not overshoot |
| `Gjk.AddedVertexIsIndependent` | franka_multi_mode_controller/multi_mode_controller/src/openGJK.c:692-706 | a vertex with v.w < v.v added to an independent simplex with v.s = v.v leaves it affinely independent |
| `Gjk.TriangleClosesGap` | franka_multi_mode_controller/multi_mode_controller/src/redundancy_resolution.cpp:398-420 | for two links, a triangle of differences has v.w = v.v for every further difference of ends: no fourth vertex can pass the gap test |
| `GjkRun.RunStaysOutside` | franka_multi_mode_controller/multi_mode_controller/src/openGJK.c:675-723 | at every point of every run, misjudged or not, some difference of hull points is at most as long as v |
| `GjkRun.RunIsNearestIff` | franka_multi_mode_controller/multi_mode_controller/src/openGJK.c:675-723 | every chosen point is the nearest of its simplex if and only if the run misjudges no tetrahedron |
| `GjkRun.RunDescends` | franka_multi_mode_controller/multi_mode_controller/src/openGJK.c:675-723 | a run that misjudges no tetrahedron strictly descends, over any number of steps |
| `GjkRun.RunNeverRepeats` | franka_multi_mode_controller/multi_mode_controller/src/openGJK.c:675-723 | such a run never holds the same set of vertices twice, so only a misjudged tetrahedron can make the loop go round |
| `GjkRun.RunInHull` | franka_multi_mode_controller/multi_mode_controller/src/openGJK.c:675-723 | as long as no step overshoots, v lies in the hull of its simplex, and every step that is not misjudged comes strictly closer |
| `GjkRun.OvershootLeavesHull` | franka_multi_mode_controller/multi_mode_controller/src/openGJK.c:448-452 | every point of a run lies in the hull of its simplex if and only if no step overshoots |
| `GjkRun.LinkRuns` | franka_multi_mode_controller/multi_mode_controller/src/openGJK.c:675-723 | every run between two links has at most ten steps, each from another of the ten segments and points of their ends, and none on a tetrahedron |
| `GjkDistance.GapTestCertifies` | franka_multi_mode_controller/multi_mode_controller/src/openGJK.c:683-695 | the gap test implies v.(a-b) >= v.v - max(eps_rel v.v, eps_tot) for all points a, b of the two hulls |
| `GjkDistance.CertifiedIsNearlyNearest` | franka_multi_mode_controller/multi_mode_controller/src/openGJK.c:692-695 | a certified v bounds every squared distance from below up to twice the tolerance |
| `GjkDistance.UpdateMaxNorm` | franka_multi_mode_controller/multi_mode_controller/src/openGJK.c:711-717 | the running maximum is the squared norm of some vertex difference and at least that of every kept vertex |
| `GjkDistance.Refine` | franka_multi_mode_controller/multi_mode_controller/src/openGJK.c:701-709 | one refinement is a step of the run: the support point is added below the old plane and the sub-algorithm chooses from an independent simplex |
| `GjkDistance.SupportPoint` | franka_multi_mode_controller/multi_mode_controller/src/openGJK.c:679-690 | w is a difference of two vertices, the one of body 1 furthest against v, the one of body 2 furthest along it |
| `GjkDistance.ComputeMinimumDistance` | franka_multi_mode_controller/multi_mode_controller/src/openGJK.c:641-731 | the result is the length of the last point of a run of at most 25 steps, with each exit's guarantee; some two points of the bodies are exactly that far apart, and unless the iteration limit ended the run it is their distance up to the slack; links never reduce a tetrahedron and end by themselves within ten refinements |
| `GjkDistance.RunIsAttained` | franka_multi_mode_controller/multi_mode_controller/src/openGJK.c:675-731 | at every point of every run some two points of the bodies are exactly as far apart as v is long |
| `GjkDistance.CalculateDistance` | franka_multi_mode_controller/multi_mode_controller/src/redundancy_resolution.cpp:355-396 | the result is attained by two points of the bodies; for two links no two points are closer than the slack allows |
| `GjkDistance.ExitsAreAccurate` | franka_multi_mode_controller/multi_mode_controller/src/openGJK.c:692-721 | each of the three tests certifies an attained value as the distance up to the slack |
| `GjkDistance.SlackIsSmall` | franka_multi_mode_controller/multi_mode_controller/src/openGJK.c:48-49 | the tolerances in figures: for squared distances and norms up to 100 the slack is between 4e-14 and 1e-9 |
| `GjkCycle.RunIsCycle` | franka_multi_mode_controller/multi_mode_controller/src/openGJK.c:675-723 | against the five vertices every run, however long, goes through the same five states, the last four in a circle |
| `GjkCycle.CycleMisjudges` | franka_multi_mode_controller/multi_mode_controller/src/openGJK.c:448-452 | its fourth step meets the guard and overshoots: v leaves the hull, and its square grows from 4 to 118/15 |
| `GjkCycle.CycleEnds` | franka_multi_mode_controller/multi_mode_controller/src/openGJK.c:692-723 | none of the three tests ever ends it, so the limit does, after 25 steps |
| `GjkCycle.CyclingDistance` | franka_multi_mode_controller/multi_mode_controller/src/openGJK.c:641-731 | called with these vertices the function returns a value whose square is 44/7; that is not the distance, as two points at distance 2 exist |
| `Kinematics.JointIsRigid` | franka_multi_mode_controller/multi_mode_controller/src/redundancy_resolution.cpp:27-46 | one Denavit-Hartenberg step is rigid and its offset has squared length a^2 + d^2 |
| `Kinematics.TurnKeepsDots` | franka_multi_mode_controller/multi_mode_controller/src/redundancy_resolution.cpp:96-98 | rotating by a rigid transform preserves dot products |
| `Kinematics.ProductIsRigid` | franka_multi_mode_controller/multi_mode_controller/src/redundancy_resolution.cpp:96-98 | the product of rigid transforms is rigid |
| `Kinematics.BaseIsRigid` | franka_multi_mode_controller/multi_mode_controller/src/redundancy_resolution.cpp:68-94 | base, shoulder and mounting together are rigid for every configuration |
| `Kinematics.FK` | franka_multi_mode_controller/multi_mode_controller/src/redundancy_resolution.cpp:48-101 | the accumulated matrix is the base times the first index + 1 joint matrices of the chosen arm |
| `Kinematics.ChainIsRigid` | franka_multi_mode_controller/multi_mode_controller/src/redundancy_resolution.cpp:48-101 | FK is a rigid transform for every configuration, arm and index |
| `Kinematics.GetJointsPositions` | franka_multi_mode_controller/multi_mode_controller/src/redundancy_resolution.cpp:129-137 | column i is the position of joint i |
| `Kinematics.LinkLengthIsConstant` | franka_multi_mode_controller/multi_mode_controller/src/redundancy_resolution.cpp:129-137 | consecutive joints are always at squared distance a^2 + d^2 |
| `Kinematics.ChainIgnoresLaterJoints` | franka_multi_mode_controller/multi_mode_controller/src/redundancy_resolution.cpp:96-98 | a frame depends only on the joints before it, and its origin not even on its own joint |
| `Kinematics.PerturbationIsLocal` | franka_multi_mode_controller/multi_mode_controller/src/redundancy_resolution.cpp:48-137 | changing joint k of one arm leaves that arm's positions 0..k and all positions of the other arm unchanged |
| `Kinematics.ShouldersApart` | franka_multi_mode_controller/multi_mode_controller/src/redundancy_resolution.cpp:54-94 | the two arm bases are 0.52 apart in every configuration |
| `ArmGeometry.JointTurns` | franka_multi_mode_controller/multi_mode_controller/src/redundancy_resolution.cpp:31-52 | in every configuration each of the eight joints turns by its own angle about the previous z axis, y axis or the opposite, as the table lists them, and moves the origin by the table's offsets, all written out |
| `ArmGeometry.BaseFrame` | franka_multi_mode_controller/multi_mode_controller/src/redundancy_resolution.cpp:54-94 | an arm's chain starts level, in the heading of the base, 0.26 to its right or left |
| `ArmGeometry.ElbowPosition` | franka_multi_mode_controller/multi_mode_controller/src/redundancy_resolution.cpp:31-137 | joint 2 in closed form: 0.333 up, then 0.316 in the direction given by the heading and the first two angles |
| `ArmGeometry.ReachIsByElbow` | franka_multi_mode_controller/multi_mode_controller/src/redundancy_resolution.cpp:31-137 | the distance from joint 1 to joint 4 depends on the elbow angle alone, by the law written out |
| `Collision.LinkClearance` | franka_multi_mode_controller/multi_mode_controller/src/redundancy_resolution.cpp:407-420 | the least of the limit and the distances from one link to the seven links of the other arm |
| `Collision.CollisionAvoidanceDistances` | franka_multi_mode_controller/multi_mode_controller/src/redundancy_resolution.cpp:398-424 | entry i is the clearance of link i from the whole other arm, for both arms |
| `Collision.HullIsSegment` | franka_multi_mode_controller/multi_mode_controller/src/redundancy_resolution.cpp:407-417 | the midpoint column adds nothing: the hull of a link is the straight line between its two joints |
| `Collision.ClearanceSeparates` | franka_multi_mode_controller/multi_mode_controller/src/redundancy_resolution.cpp:398-424 | no point of link i comes closer to any link of the other arm than its entry, up to the slack, and unless it is the limit some two points are exactly that far apart |
| `MotionPlan.ReachSpeedIsReach` | franka_example_controllers/src/comless/motion_generator.cpp:84-90 | the lowered top speed is positive, within the limit, its ramps fit into the distance, and it is below the limit only if the ramps use all of it |
| `MotionPlan.ReachIsFastest` | franka_example_controllers/src/comless/motion_generator.cpp:82-94 | no admissible speed brings a joint to its goal sooner |
| `MotionPlan.SyncSpeedSynchronises` | franka_example_controllers/src/comless/motion_generator.cpp:97-105 | the discriminant is never negative; the smaller root is positive, no faster than the joint's own best speed, and makes the motion last exactly the common duration |
| `MotionPath.PlanIsTimed` | franka_example_controllers/src/comless/motion_generator.cpp:105-111 | every planned joint arrives at max_t_f, with 0 < t_1 <= t_2 < t_f, within its speed limit and with ramps that fit its acceleration limits |
| `MotionPath.PiecesMeet` | franka_example_controllers/src/comless/motion_generator.cpp:50-64 | both formulas at each switching time and at the goal give the same distance |
| `MotionPath.RampRises` | franka_example_controllers/src/comless/motion_generator.cpp:50-53 | the normalised quartic ramp rises, never faster than the identity |
| `MotionPath.DisplacementIsProgress` | franka_example_controllers/src/comless/motion_generator.cpp:50-66 | the code's quartic formulas are the direction times ramp up, cruise, or mirrored ramp down |
| `MotionPath.ProgressAdvances` | franka_example_controllers/src/comless/motion_generator.cpp:50-66 | between any two times the joint moves towards its goal by at most the speed times the time |
| `MotionPath.PathIsSafe` | franka_example_controllers/src/comless/motion_generator.cpp:38-71 | the displacement starts at zero, reaches the goal at t_f, never overshoots, is monotone and speed-limited, and is over exactly from t_f on |
| `MotionRate.AccelerationIsLimited` | franka_example_controllers/src/comless/motion_generator.cpp:45-66 | between any two times the velocity changes by at most the leaving limit upwards and the arriving limit downwards times the time between; it is the rate at which the path advances, to second order; it is zero at the start and from t_f on |
| `MotionPath.ThresholdJointIsUnplanned` | franka_example_controllers/src/comless/motion_generator.cpp:46-83 | at a distance of exactly the threshold, array contents exist that send the joint to its goal at once, and others that keep it unfinished at any given time |
| `MotionGenerator.Generator.constructor` | franka_example_controllers/src/comless/motion_generator.cpp:25-36 | the limits are 2 or 2.5 and 5 times the speed factor and the plan is synchronised |
| `MotionGenerator.Generator.CalculateSynchronizedValues` | franka_example_controllers/src/comless/motion_generator.cpp:73-114 | every moving joint arrives at max_t_f within its limit, and some joint cannot arrive sooner at any admissible speed |
| `MotionGenerator.MaxCoeff` | franka_example_controllers/src/comless/motion_generator.cpp:95 | the largest entry |
| `MotionGenerator.Generator.CalculateDesiredValues` | franka_example_controllers/src/comless/motion_generator.cpp:38-71 | resting joints get zero, all others the path value; finished if and only if every joint rests or is over |
| `MotionGenerator.Generator.GetDesiredJointPositions` | franka_example_controllers/src/comless/motion_generator.cpp:116-126 | start plus displacement for every joint; finished if and only if max_t_f is reached and the entries of every joint exactly at the threshold are over; finished then means within the threshold of the goal |
| `ResourceNames.VectorToResource` | franka_multi_mode_controller/multi_mode_controller/include/multi_mode_controller/utils/conversions.h:26-36 | the loop joins the names with '&' |
| `ResourceNames.SplitOfJoin` | franka_multi_mode_controller/multi_mode_controller/include/multi_mode_controller/utils/conversions.h:9-42 | splitting a joined list gives the list back if and only if no name contains '&' and the last name is not empty |
| `ResourceNames.JoinOfSplit` | franka_multi_mode_controller/multi_mode_controller/include/multi_mode_controller/utils/conversions.h:9-42 | joining a split resource gives the resource back if and only if it does not end in '&' |
| `ControlSets.RobotIndex` | franka_multi_mode_controller/multi_mode_controller_impl/src/multi_mode_controller.cpp:218-221 | the first arm of that name; an unknown name counts as arm zero |
| `ControlSets.OverlapsIsTouches` | franka_multi_mode_controller/multi_mode_controller_impl/src/multi_mode_controller.cpp:337-350 | the nested any_of over torque arrays is true exactly when the controllers name a common arm |
| `ControlSets.MergeIsFilter` | franka_multi_mode_controller/multi_mode_controller_impl/src/multi_mode_controller.cpp:337-354 | if no arm is used twice, the growing loop keeps exactly the old controllers that share no arm with the request |
| `ControlSets.TakesOverExactly` | franka_multi_mode_controller/multi_mode_controller_impl/src/multi_mode_controller.cpp:330-374 | from an exact cover the merged set is an exact cover if and only if the request uses exactly the arms of the evicted controllers |
| `ControlSets.AcceptedIffFair` | franka_multi_mode_controller/multi_mode_controller_impl/src/multi_mode_controller.cpp:330-374 | from an exact cover a request passes if and only if it names no arm twice and names all arms of every controller it evicts |
| `ControlSets.OneControllerPerEngine` | franka_multi_mode_controller/multi_mode_controller_impl/src/multi_mode_controller.cpp:391-402 | in an exact cover two entries of one resource can only be entries that drive no arm |
| `ControlSets.OwnerOf` | franka_multi_mode_controller/multi_mode_controller_impl/src/multi_mode_controller.cpp:355-372 | an exact cover has exactly one position driving each arm |
| `ControlSets.SeparateRequestsCommute` | franka_multi_mode_controller/multi_mode_controller_impl/src/multi_mode_controller.cpp:330-406 | two acceptable requests that evict different controllers are accepted in either order and as one, and end in the same pairs |
| `ControlSets.RepeatChangesNothing` | franka_multi_mode_controller/multi_mode_controller_impl/src/multi_mode_controller.cpp:330-406 | sending an accepted request again changes nothing if and only if each of its controllers drives an arm |
| `MultiModeController.Controller.constructor` | franka_multi_mode_controller/multi_mode_controller_impl/src/multi_mode_controller.cpp:231-285 | the start set is active as given if all its pairs are loaded, and nothing is otherwise |
| `MultiModeController.Controller.GetControlSetFromInfo` | franka_multi_mode_controller/multi_mode_controller_impl/src/multi_mode_controller.cpp:291-319 | the pairs as given if all are loaded, nothing otherwise |
| `MultiModeController.Controller.CarryOver` | franka_multi_mode_controller/multi_mode_controller_impl/src/multi_mode_controller.cpp:337-354 | the nested loops compute the merged set |
| `MultiModeController.Controller.CountUsage` | franka_multi_mode_controller/multi_mode_controller_impl/src/multi_mode_controller.cpp:355-360 | every arm's counter is how often the set names it |
| `MultiModeController.Controller.SetupControlSet` | franka_multi_mode_controller/multi_mode_controller_impl/src/multi_mode_controller.cpp:330-374 | the merged set if all pairs are loaded and every arm counts one, nothing otherwise |
| `MultiModeController.CountIsExactCover` | franka_multi_mode_controller/multi_mode_controller_impl/src/multi_mode_controller.cpp:355-372 | a set drives every arm exactly once if and only if it passes the count and no two arms share a name |
| `MultiModeController.LaterNameIsHidden` | franka_multi_mode_controller/multi_mode_controller_impl/src/multi_mode_controller.cpp:355-372 | an arm that is not the first of its name is never driven |
| `MultiModeController.SameNameHidesAnArm` | franka_multi_mode_controller/multi_mode_controller_impl/src/multi_mode_controller.cpp:361-372 | with two arms of one name the count passes although one arm is undriven |
| `MultiModeController.StartSetMayMissAnArm` | franka_multi_mode_controller/multi_mode_controller_impl/src/multi_mode_controller.cpp:253-271 | a controller built with a start set that leaves an arm undriven has it active |
| `MultiModeController.Controller.StopActive` | franka_multi_mode_controller/multi_mode_controller_impl/src/multi_mode_controller.cpp:396-398 | each stop hits a running controller, and none is left running |
| `MultiModeController.Controller.StartActive` | franka_multi_mode_controller/multi_mode_controller_impl/src/multi_mode_controller.cpp:400-402 | exactly the active controllers run |
| `MultiModeController.Controller.SetControllers` | franka_multi_mode_controller/multi_mode_controller_impl/src/multi_mode_controller.cpp:378-406 | accepted if and only if all pairs are loaded and the merged set passes the count; then it is active and running, otherwise nothing changes |
| `MultiModeController.RunKeepsExactCover` | franka_multi_mode_controller/multi_mode_controller_impl/src/multi_mode_controller.cpp:378-406 | over any sequence of calls an exact cover stays one; and a changed set is one if and only if no two arms share a name |
| `MultiModeController.Serve` | franka_multi_mode_controller/multi_mode_controller_impl/src/multi_mode_controller.cpp:378-406 | calling the service again and again leaves the set that run describes, and answers each call accordingly |
| `MultiModeController.EnginesRunOneController` | franka_multi_mode_controller/multi_mode_controller_impl/src/multi_mode_controller.cpp:391-402 | under an exact cover a switch engine that serves an arm runs one controller, once |
| `MultiModeController.Controller.ComputeTau` | franka_multi_mode_controller/multi_mode_controller/include/multi_mode_controller/base/switch_engine.h:21-24 | a controller writes the torque arrays it points to and no others |
| `MultiModeController.Controller.WriteCommands` | franka_multi_mode_controller/multi_mode_controller_impl/src/multi_mode_controller.cpp:72-78 | the seven torques of arm n go to slots 7n to 7n+6 |
| `MultiModeController.Controller.Update` | franka_multi_mode_controller/multi_mode_controller_impl/src/multi_mode_controller.cpp:63-81 | each slot holds the torque of the last active controller of its arm, or the stale one if there is none |
| `MultiModeController.OwnerCommands` | franka_multi_mode_controller/multi_mode_controller_impl/src/multi_mode_controller.cpp:63-81 | under an exact cover each slot holds the torque computed by its arm's one controller |
| `ArmNames.DrivesInOrder` | franka_multi_mode_controller/multi_mode_controller_impl/src/multi_mode_controller.cpp:212-226 | entry k of a resource of several names is the first arm of name k, or arm zero if no arm has that name |
| `ArmNames.DrivesByName` | franka_multi_mode_controller/multi_mode_controller_impl/src/multi_mode_controller.cpp:356-361 | of distinct arms a resource of several names drives arm i exactly as often as its name occurs among them |
| `ArmNames.CoverIsPermutation` | franka_multi_mode_controller/multi_mode_controller_impl/src/multi_mode_controller.cpp:356-374 | a set of controllers drives every arm exactly once if and only if the names of its resources are those of the arms, in some order |
| `ArmNames.ServiceInNames` | franka_multi_mode_controller/multi_mode_controller_impl/src/multi_mode_controller.cpp:330-374 | from an exact cover a request is accepted if and only if its pairs are loaded and it names no arm twice, and all arms of whom it takes one from; then the active set is the request and, in order, the controllers none of whose arms it names; otherwise nothing changes |
| `ArmNames.OneTakesAll` | franka_multi_mode_controller/multi_mode_controller_impl/src/multi_mode_controller.cpp:330-374 | from any exact cover a controller loaded for all arms is accepted, and is then the only one if and only if no active controller had the empty resource |
| `ArmNames.DualReplacesBoth` | franka_multi_mode_controller/multi_mode_controller_impl/src/multi_mode_controller.cpp:212-226 | with two arms each driven by its own controller, a controller loaded for the joined resource of both replaces both |
| `ArmNames.TorquesByName` | franka_multi_mode_controller/multi_mode_controller_impl/src/multi_mode_controller.cpp:63-81 | under an exact cover each arm's torques come from the controller written with its name |
| `CommandModes.StopMarks` | franka_hardware/src/real/franka_multi_hardware_interface.cpp:329-409 | a stop that names the arm switches it off and marks it; one that does not leaves it alone |
| `CommandModes.StartMarks` | franka_hardware/src/real/franka_multi_hardware_interface.cpp:415-498 | a start is accepted only from "off", marks every change of mode, and touches nothing but mode and mark |
| `CommandModes.OkMeansAllAccept` | franka_hardware/src/real/franka_multi_hardware_interface.cpp:313-503 | prepare succeeds if and only if every arm accepts its share of both lists, and then every arm has both applied |
| `CommandModes.PrepareMarks` | franka_hardware/src/real/franka_multi_hardware_interface.cpp:313-503 | after any prepare, failed or not: changes are marked, marks survive, modes are entered only from "off", unnamed arms are untouched, and a start on a running arm that is not stopped fails |
| `CommandModes.FailedPrepareIsHarmlessIff` | franka_hardware/src/real/franka_multi_hardware_interface.cpp:313-503 | a failed prepare with no switch pending before it changes nothing if and only if no stop named an arm the stop loop passed and no start took effect on an arm the start loop passed |
| `CommandModes.JointModesOnly` | franka_hardware/src/sim/franka_mj_hardware_system.cpp:357-504 | in simulation no prepare puts an arm into a Cartesian mode |
| `CommandModes.StopAcceptedIff` | franka_hardware/src/real/franka_multi_hardware_interface.cpp:329-410 | an arm accepts its share of the stops if and only if it is empty, or all stops have one kind in common and the share is seven joint interfaces, or Cartesian ones on real hardware while all stops are as many as the kind has |
| `CommandModes.StartAcceptedIff` | franka_hardware/src/real/franka_multi_hardware_interface.cpp:415-498 | it accepts its share of the starts if and only if it is empty, or the arm is off, all starts have one kind in common and the share is seven joint interfaces, or sixteen or six Cartesian ones on real hardware |
| `CommandModes.ClaimAndRelease` | franka_hardware/src/real/franka_multi_hardware_interface.cpp:329-498 | claiming an arm's seven joint interfaces of one kind enters that kind's mode if and only if the arm is off and its name contains no other kind's word; releasing them switches such an arm off and zeroes efforts or velocities, never positions |
| `CommandModes.CartesianClaimAndRelease` | franka_hardware/src/real/franka_multi_hardware_interface.cpp:329-498 | sixteen pose interfaces enter the Cartesian pose mode and six twist interfaces the Cartesian velocity mode if and only if the arm is off and its name contains neither another kind's word nor "joint"; releasing them needs the same of the name and zeroes the commanded velocity only; never in simulation |
| `CommandModes.InterfacesHaveOneKind` | franka_hardware/src/common/helper_functions.cpp:12-39 | an arm's seven joint interfaces have exactly the kind they were written with, unless the arm's name contains another kind's word; then they count as confusing |
| `RealHardware.Robot.StopRobot` | franka_hardware/src/real/robot.cpp:106-115 | afterwards no loop runs and the flags are as at the start |
| `RealHardware.Robot.Initialize` | franka_hardware/src/real/robot.cpp:118-299 | on a stopped robot, the given loop runs afterwards |
| `RealHardware.MultiHardwareInterface.OnActivate` | franka_hardware/src/real/franka_multi_hardware_interface.cpp:217-230 | every arm is off with zero efforts and reads continuously, other commands and marks stay |
| `RealHardware.MultiHardwareInterface.OnDeactivate` | franka_hardware/src/real/franka_multi_hardware_interface.cpp:232-242 | every robot is stopped, while all arm containers keep their modes |
| `RealHardware.MultiHardwareInterface.PrepareCommandModeSwitch` | franka_hardware/src/real/franka_multi_hardware_interface.cpp:313-503 | the outcome on all arms, up to the first refusal; the invariant that unmarked arms run the loop of their mode survives; robots are untouched |
| `RealHardware.MultiHardwareInterface.PerformCommandModeSwitch` | franka_hardware/src/real/franka_multi_hardware_interface.cpp:505-543 | afterwards every arm runs the loop of its mode, no mark is left, and robots without a mark were not touched |
| `RealHardware.Switch` | franka_hardware/src/real/franka_multi_hardware_interface.cpp:313-543 | prepare and perform together: whose effort, position, velocity, pose or twist interfaces are claimed then runs the torque, joint position, joint velocity, Cartesian pose or Cartesian velocity loop; who is stopped and not started reads; a refused request leaves every robot as it is; a claim that names no other arm is accepted if and only if the arm is off and its name is not confusing |
| `RealHardware.ClaimSwitchesArm` | franka_hardware/src/real/franka_multi_hardware_interface.cpp:415-478 | a claim on an arm's joint interfaces reaches that arm in full; it enters the mode of their kind or is refused, under the same exact condition |
| `RealHardware.RequestsAreIsolated` | franka_hardware/src/real/franka_multi_hardware_interface.cpp:330-423 | an arm whose name occurs in no interface of the request stays as it is, however prepare ends |
| `RealHardware.ClaimIsIsolatedIff` | franka_hardware/src/real/franka_multi_hardware_interface.cpp:415-478 | a claim on one arm leaves another alone if and only if the other's name occurs in none of the claimed interfaces |
| `RealHardware.ReleaseReaches` | franka_hardware/src/real/franka_multi_hardware_interface.cpp:330-410 | what releasing one arm's interfaces does to an arm of any name: nothing if it occurs in none of them, the same release if it occurs in all of them and the first name is not confusing, and a refusal otherwise |
| `RealHardware.ReleaseIsIsolatedIff` | franka_hardware/src/real/franka_multi_hardware_interface.cpp:330-410 | the release leaves the other arm alone if and only if its name occurs in none of the interfaces, or in all of them while it already is as a release leaves it |
| `RealHardware.NameReaches` | franka_hardware/src/real/franka_multi_hardware_interface.cpp:419-423 | for a name without separators: it occurs in an interface if and only if it occurs in the arm's name, the joint or the kind |
| `RealHardware.PrepareIsNotAtomic` | franka_hardware/src/real/franka_multi_hardware_interface.cpp:313-503 | a failing hand-over between two arms that leaves the first switched off |
| `SimHardware.MjHardwareSystem.constructor` | franka_hardware/src/sim/franka_mj_hardware_system.cpp:141-146 | all actuators of all arms start off |
| `SimHardware.MjHardwareSystem.SetTorqueControl` | franka_hardware/src/sim/franka_mj_hardware_system.cpp:559-565 | one gain entry becomes 0 or 1 |
| `SimHardware.MjHardwareSystem.SetPositionServo` | franka_hardware/src/sim/franka_mj_hardware_system.cpp:566-570 | one gain entry becomes kp, one bias entry -kp |
| `SimHardware.MjHardwareSystem.SetVelocityServo` | franka_hardware/src/sim/franka_mj_hardware_system.cpp:574-578 | one gain entry becomes kv, one bias entry -kv |
| `SimHardware.MjHardwareSystem.ApplyMode` | franka_hardware/src/sim/franka_mj_hardware_system.cpp:518-546 | the arm's 21 actuators show the gains and biases of the mode, and no entry outside them changes |
| `SimHardware.MjHardwareSystem.OnActivate` | franka_hardware/src/sim/franka_mj_hardware_system.cpp:213-222 | every arm is off with zero efforts; unmarked arms still show their mode if and only if each was off |
| `SimHardware.MjHardwareSystem.OnDeactivate` | franka_hardware/src/sim/franka_mj_hardware_system.cpp:224-233 | every arm is off; unmarked arms still show their mode if and only if each was off |
| `SimHardware.MjHardwareSystem.PrepareCommandModeSwitch` | franka_hardware/src/sim/franka_mj_hardware_system.cpp:311-506 | the outcome on all arms, up to the first refusal; no gain or bias changes; unmarked arms keep showing their mode |
| `SimHardware.MjHardwareSystem.PerformCommandModeSwitch` | franka_hardware/src/sim/franka_mj_hardware_system.cpp:508-553 | marked arms show their mode, the entries of all other arms stay, and every arm still has at most one family with a gain; afterwards unmarked arms show their mode if they did before |
| `SimHardware.Switch` | franka_hardware/src/sim/franka_mj_hardware_system.cpp:313-553 | prepare and perform together: whose effort, position or velocity interfaces are claimed has gains 1, 0, 0 or 0, 100, 0 or 0, 0, 10 on its torque, position and velocity actuators, with the matching biases; who is stopped and not started has none; a refused request leaves all gains as they are |
| `SimHardware.ShowingIsExclusive` | franka_hardware/src/sim/franka_mj_hardware_system.cpp:518-546 | the gains of any mode leave two of the three families off |
| `SimHardware.ResetKeepsStepIff` | franka_hardware/src/sim/franka_mj_hardware_system.cpp:213-233 | resetting a mode without marking it keeps an arm in step if and only if a switch is pending or it was off |
| `SimHardware.PrefixesAreExclusive` | franka_hardware/src/common/helper_functions.cpp:5-10 | an interface cannot start with the joint prefixes of two arms if no arm name contains "_joint" |
| `SimHardware.RequestsAreIsolated` | franka_hardware/src/sim/franka_mj_hardware_system.cpp:357-504 | lists that name one arm leave every other arm's mode, commands and mark unchanged |
| `SimHardware.ClaimSwitchesArm` | franka_hardware/src/sim/franka_mj_hardware_system.cpp:431-486 | the same in simulation, where interfaces are assigned to arms by prefix |
| `Interpolation.BisectSeparates` | my_impedance_bridge/my_impedance_bridge/impedance_bridge_node.py:166 | on sorted times the bisection splits the entries up to t from those after it |
| `Interpolation.ReorderPicks` | my_impedance_bridge/my_impedance_bridge/impedance_bridge_node.py:152-157 | the reordering fails if and only if some name of the order has no position; otherwise entry j is the position listed last under the name order[j] |
| `Interpolation.OrderDoesNotMatter` | my_impedance_bridge/my_impedance_bridge/impedance_bridge_node.py:152-157 | the same named positions in another order are reordered to the same list |
| `Interpolation.TrajectoryOrderDoesNotMatter` | my_impedance_bridge/my_impedance_bridge/impedance_bridge_node.py:152-172 | a trajectory whose waypoints list the joints in another order is interpolated to the same positions at every time |
| `Interpolation.BisectionIsLinear` | my_impedance_bridge/my_impedance_bridge/impedance_bridge_node.py:159-172 | for sorted times and complete names entry j of the result is the piecewise-linear curve, as a plain scan computes it, through the positions the waypoints list last under the name order[j] |
| `Interpolation.ColumnIsRaw` | my_impedance_bridge/my_impedance_bridge/impedance_bridge_node.py:152-157 | for distinct names with one position each, the column of joint j is that of the place where its name is listed |
| `Interpolation.CurveHitsWaypoints` | my_impedance_bridge/my_impedance_bridge/impedance_bridge_node.py:159-172 | the curve goes through every waypoint that is not directly followed by another at the same time |
| `Interpolation.CurveKeepsSlope` | my_impedance_bridge/my_impedance_bridge/impedance_bridge_node.py:159-172 | between any two times a joint moves no further than the steepest segment would |
| `ImpedanceBridge.Bridge.SendTrajectoryFromMsg` | my_impedance_bridge/my_impedance_bridge/impedance_bridge_node.py:108-111 | the trajectory is loaded, the clock is at zero and active |
| `ImpedanceBridge.Bridge.LoadTrajectory` | my_impedance_bridge/my_impedance_bridge/impedance_bridge_node.py:135-150 | the times are those of the points, and the clock is untouched |
| `ImpedanceBridge.Bridge.Tick` | my_impedance_bridge/my_impedance_bridge/impedance_bridge_node.py:174-196 | publishes the nudged setpoint and advances the clock, or, without one, does neither; for sorted times and complete names message entry j is the curve through the listed positions of joint order[j], but for a leading zero that becomes 0.000001 |
| `ImpedanceBridge.NudgedIsAccepted` | my_impedance_bridge/my_impedance_bridge/impedance_bridge_node.py:187-188 | a published message never starts with zero and differs from the setpoint by at most 1e-6 |
| `ImpedanceBridge.JointImpedanceController.DesiredJointCallback` | franka_example_controllers/src/subscriber/joint_impedance_controller.cpp:130-137 | the goal becomes the first seven numbers unless the first is zero, and then it is unchanged |
| `ImpedanceBridge.RunPublishes` | my_impedance_bridge/my_impedance_bridge/impedance_bridge_node.py:194-196 | the clock is active for exactly the counted callbacks, at 0, period, 2 period, ... |
| `ImpedanceBridge.CountIsPositive` | my_impedance_bridge/my_impedance_bridge/impedance_bridge_node.py:194-196 | the count is floor(T / period) + 2 for every duration T that is not negative |
| `ImpedanceBridge.RunEndsAtLastWaypoint` | my_impedance_bridge/my_impedance_bridge/impedance_bridge_node.py:159-196 | the last counted setpoint is the last waypoint, each joint's position the one listed under its name |
| `ImpedanceBridge.PlayOut` | my_impedance_bridge/my_impedance_bridge/impedance_bridge_node.py:97-98 | any number of callbacks after loading publish the setpoints in order and stop after the count |
| `ImpedanceBridge.StepIsBounded` | my_impedance_bridge/my_impedance_bridge/impedance_bridge_node.py:174-196 | consecutive messages differ per joint by at most period times the steepest slope plus the nudge |
| `Quaternion.RadicandAtLeastOne` | htm_ik_action/htm_ik_action/htm_ik_server.py:57-81 | the taken branch's radicand is at least one for every matrix |
| `Quaternion.RotationIsRankOne` | htm_ik_action/htm_ik_action/htm_ik_server.py:51-83 | for a rotation the ten sums and differences the branches use form a symmetric matrix of rank one |
| `Quaternion.ShepperdRepresents` | htm_ik_action/htm_ik_action/htm_ik_server.py:51-83 | all four branches return a quaternion with exactly these products |
| `Quaternion.ShepperdIsFaithful` | htm_ik_action/htm_ik_action/htm_ik_server.py:51-83 | for every rotation matrix the result is a unit quaternion whose matrix is the input |
| `Quaternion.ShepperdInvertsUpToSign` | htm_ik_action/htm_ik_action/htm_ik_server.py:51-83 | from the matrix of a unit quaternion the result is that quaternion or its negative |
| `Quaternion.PoseIsFaithful` | htm_ik_action/htm_ik_action/htm_ik_server.py:125-143 | every homogeneous transform is recovered from its pose |
| `MinimumJerk.MaxMove` | py_codes_real/franka_ik_solver.py:131 | the largest single-joint move, attained by some joint |
| `MinimumJerk.BlendRises` | py_codes_real/franka_ik_solver.py:98-105 | the blend is monotone with slope at most 15/8 between any two points |
| `MinimumJerk.BlendInUnit` | py_codes_real/franka_ik_solver.py:98-105 | the blend stays between 0 and 1 |
| `MinimumJerk.VelocityBounded` | py_codes_real/franka_ik_solver.py:108-114 | the velocity blend times the duration is between 0 and 15/8 at any time |
| `MinimumJerk.DerivativesMatch` | py_codes_real/franka_ik_solver.py:98-123 | velocity is the derivative of position and acceleration that of velocity: difference quotients agree to first order, with an explicit second-order error bound |
| `MinimumJerk.DerivativesInTime` | py_codes_real/franka_ik_solver.py:98-123 | in seconds: between any two times the position blend moves as the velocity blend says, and that as the acceleration blend says, up to an explicit second-order term in the share of the duration |
| `MinimumJerk.HeldOutside` | py_codes_real/franka_ik_solver.py:98-123 | before the motion the blend is zero and after it one, in both cases at rest |
| `MinimumJerk.EndJerkIsZeroIff` | py_codes_real/franka_ik_solver.py:337-343 | at either end a joint's jerk is zero if and only if target and current position agree |
| `MinimumJerk.JerkMatches` | py_codes_real/franka_ik_solver.py:117-123 | the jerk blend is the derivative of the acceleration blend |
| `MinimumJerk.DurationIsLongEnough` | py_codes_real/franka_ik_solver.py:126-133 | the estimate is at least five seconds, and no joint needs more than the scaled speed on average |
| `MinimumJerk.EstimateIsLeast` | py_codes_real/franka_ik_solver.py:126-133 | no shorter duration of at least five seconds is enough for every joint |
| `MinimumJerk.BuildMinimumJerkTrajectory` | py_codes_real/franka_ik_solver.py:337-383 | the loop appends n + 1 waypoints, each as defined |
| `MinimumJerk.WaypointsBelongTogether` | py_codes_real/franka_ik_solver.py:357-376 | the same of the positions, velocities and accelerations that the waypoints of one trajectory carry |
| `MinimumJerk.WaypointKeepsLimits` | py_codes_real/franka_ik_solver.py:365-368 | limits that start and target keep are kept by every waypoint |
| `MinimumJerk.TrajectoryEnds` | py_codes_real/franka_ik_solver.py:357-376 | the first waypoint is the start, the last the target, both at rest without acceleration |
| `MinimumJerk.WaypointsAdvance` | py_codes_real/franka_ik_solver.py:357-368 | from one waypoint to a later one a joint moves towards its target by at most 15/8 of the share of time |
| `MinimumJerk.SpeedIsBounded` | py_codes_real/franka_ik_solver.py:369-372 | with the estimated duration no waypoint speed exceeds 1.875 * 2.175 * speed_factor |
| `MinimumJerk.StampIsClose` | py_codes_real/franka_ik_solver.py:378-380 | sec * 10^9 + nanosec is the time in nanoseconds to within one half |
| `MinimumJerk.NanosecondsCarry` | py_codes_real/franka_ik_solver.py:378-380 | nanosec stays below 10^9 if and only if the fraction is below 999999999.5 nanoseconds |
| `MinimumJerk.NanosecondsCanReachASecond` | py_codes_real/franka_ik_solver.py:378-380 | a time at which it does not |
| `MinimumJerk.StampsIncreaseIff` | py_codes_real/franka_ik_solver.py:378-381 | the n + 1 stamps strictly increase if and only if the stamp of the duration is at least n nanoseconds |
| `MinimumJerk.StampsCanRepeat` | py_codes_real/franka_ik_solver.py:378-381 | a nanosecond in two steps repeats a stamp |
| `MinimumJerk.EstimatedStampsIncrease` | py_codes_real/franka_ik_solver.py:378-399 | with the estimated duration they do for every number of waypoints up to five billion |
| `StreamedMotion.TimeSurvives` | my_impedance_bridge/my_impedance_bridge/impedance_bridge_node.py:140-146 | the bridge reads the time of waypoint i back from its two fields to within half a nanosecond of duration times i / n |
| `StreamedMotion.TimesAreSorted` | my_impedance_bridge/my_impedance_bridge/impedance_bridge_node.py:140-146 | with increasing stamps the times it reads strictly increase |
| `StreamedMotion.ArrivesAtTarget` | my_impedance_bridge/my_impedance_bridge/impedance_bridge_node.py:152-196 | a streamed minimum-jerk trajectory ends at its target, joint by joint as the names say |

## Left out

- ComputeMinimumDistance: after a run stopped by the iteration limit only promises a value that two points attain; CyclingDistance shows that it need not be the distance.
- Rounding of floating-point numbers.
- The three coordinate loops, `std::pow` and Eigen expressions are single expressions.
- The six initialize functions of a robot differ only in the loop they start and are one method with that loop as a parameter.
- PlayOut: drives the timer callback in sequence; callbacks that overlap in time are not modelled.
- Errors raised by a running robot loop and their recovery: a loop in the model runs until it is stopped.
- Arm containers are listed in the order of their keys; the map itself is not modelled.
- Update: takes the command slots arm by arm in the order the interfaces were claimed, as the code assumes.
- A controller's torque law: it is a parameter, and controllers write exactly the torque arrays they are handed.
- set_controllers calls before activation, and activating the multi-mode controller twice.
- Gradients of manipulability and collision, dynamics, Jacobians and pose_arm: numeric heuristics without a contract of their own.
- Publishers, services, parameters, logging, action clients and launch files.
- The gripper servers, the impedance torque laws, the broadcasters and the interactive scripts.
