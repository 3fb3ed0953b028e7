/** The billing data shared by aggregation and cost calculation. Decimal amounts are reals. */
module BillingModels {

  datatype MetricType =
    | CpuUsage
    | MemoryUsage
    | NetworkIngress
    | NetworkEgress
    | StorageUsage
    | ExecutionTime
    | ApiRequests
    | Custom(name: string)

  type UserId = nat
  type SessionId = nat

  datatype UsageMetric = UsageMetric(
    sessionId: SessionId,
    userId: UserId,
    metricType: MetricType,
    value: real,
    timestamp: int)

  datatype AggregatedMetric = AggregatedMetric(
    total: real,
    average: real,
    maximum: real,
    minimum: real,
    count: nat)

  datatype UsageSummary = UsageSummary(
    userId: UserId,
    startTime: int,
    endTime: int,
    metrics: map<MetricType, AggregatedMetric>,
    sessionCount: nat)
}
